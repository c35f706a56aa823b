/**
 When a pending leave can be completed. If deletions are only those of leaves, always. An additional
 caller of the deletion could mark the replacement key before the swap, and then never.
 */
module CustodyProgress {
  import opened Wrappers
  import opened ConditionalStore
  import opened Custody
  import opened CustodySafety
  import opened CustodyEffects
  import opened CustodyRuns
  import opened CustodyDrive

  lemma {:induction false} RunSound(cas: bool, s: State, events: seq<Event>)
    requires Sound(cas, s) && Run(cas, s, events).Some?
    ensures Sound(cas, Run(cas, s, events).value)
    decreases |events|
  {
    hide Sound, Next;
    if events != [] {
      RunSound(cas, s, events[..|events| - 1]);
      SoundStep(cas, Run(cas, s, events[..|events| - 1]).value, events[|events| - 1]);
    }
  }

  // ---- Deletions of leaves only ----

  /** The handles marked for deletion are keys the provider created. */
  ghost predicate MarksCreated(s: State)
  {
    forall h :: Marked(s.store, h) ==> h in s.created.Values
  }

  /** A deletion that runs was called by a leave. */
  predicate ByLeave(p: Proc)
  {
    p.DeleteRead? || p.InstallCommit? || p.ProviderDelete? || p.BuryRead? || p.BuryCommit? || p.BuryAccept? ==>
      p.purpose.ForLeave?
  }

  /** Nothing stands in the way of the pending leave. */
  ghost predicate Clear(s: State)
  {
    && MarksCreated(s)
    && (forall pid :: pid in s.procs ==> ByLeave(s.procs[pid]))
    && (forall leave :: Current(s, leave) ==> Completable(s, leave))
  }

  /** Which handles a transaction marks: none but the former handle of a leave that has moved. */
  lemma CommitMarks(cas: bool, s: State, p: Proc, h: Handle)
    requires Durable(cas, s) && ProcOk(cas, s, p) && MayApply(cas, s, p) && ByLeave(p)
    requires Marked(Applied(s, p).store, h) && !Marked(s.store, h)
    ensures p.InstallCommit? && h == p.handle && h == p.purpose.leave.formerHandle
    ensures Current(s, p.purpose.leave) && HasNode(s, p.purpose.leave.replacementNode)
  {
    CommitEffect(cas, s, p, DeletionIntent(h));
    CommitEffect(cas, s, p, Tombstone(h));
    hide Applied;
  }

  lemma CommitClear(cas: bool, s: State, p: Proc)
    requires Sound(cas, s) && ProcOk(cas, s, p) && MayApply(cas, s, p) && ByLeave(p) && Clear(s)
    ensures MarksCreated(Applied(s, p))
    ensures forall leave :: Current(Applied(s, p), leave) ==> Completable(Applied(s, p), leave)
  {
    var t := Applied(s, p);
    forall h | Marked(t.store, h) ensures h in t.created.Values {
      if !Marked(s.store, h) {
        CommitMarks(cas, s, p, h);
      }
    }
    forall leave | Current(t, leave) ensures Completable(t, leave) {
      CommitKeepsCompletable(cas, s, p, leave);
    }
  }

  lemma CommitKeepsCompletable(cas: bool, s: State, p: Proc, leave: Leave)
    requires Sound(cas, s) && ProcOk(cas, s, p) && MayApply(cas, s, p) && ByLeave(p) && Clear(s)
    requires Current(Applied(s, p), leave)
    ensures Completable(Applied(s, p), leave)
  {
    CommitEffect(cas, s, p, LeaveIntent);
    CommitEffect(cas, s, p, LocalIdentity);
    var t, o := Applied(s, p), leave.replacementOperation;
    assert t.created == s.created;
    if p.SwapCommit? {
      SwapEffect(s.store, p.leave, p.former, p.handle);
    } else if p.FinalizeCommit? {
      FinalizeEffect(s.store, p.node, p.operation, p.handle);
    } else if !p.BeginCommit? {
      assert Current(s, leave) && Completable(s, leave);
      if !HasNode(s, leave.replacementNode) && o in s.created && Marked(t.store, s.created[o]) {
        CommitMarks(cas, s, p, s.created[o]);
      }
    }
  }

  lemma ClearStep(cas: bool, s: State, e: Event)
    requires Sound(cas, s) && Clear(s) && Next(cas, s, e).Some? && !(e.Start? && e.proc.DeleteRead?)
    ensures Clear(Next(cas, s, e).value)
  {
    var t := Next(cas, s, e).value;
    ByLeaveStep(cas, s, e);
    if e.Commit? && e.applied {
      var p := s.procs[e.pid];
      assert ProcOk(cas, s, p);
      CommitClear(cas, s, p);
      SameMarks(Applied(s, p), t);
    } else if e.Create? {
      CreateClear(cas, s, e);
    } else {
      SameMarks(s, t);
    }
  }

  lemma SameMarks(s: State, t: State)
    requires forall key: Key :: !key.Domain? ==> Lookup(t.store, key) == Lookup(s.store, key)
    requires t.created == s.created && MarksCreated(s)
    requires forall leave :: Current(s, leave) ==> Completable(s, leave)
    ensures MarksCreated(t) && forall leave :: Current(t, leave) ==> Completable(t, leave)
  {
    forall h ensures Marked(t.store, h) == Marked(s.store, h) {
      assert Lookup(t.store, DeletionIntent(h)) == Lookup(s.store, DeletionIntent(h));
      assert Lookup(t.store, Tombstone(h)) == Lookup(s.store, Tombstone(h));
    }
    forall leave | Current(t, leave) ensures Completable(t, leave) {
      assert Lookup(t.store, LeaveIntent) == Lookup(s.store, LeaveIntent);
      assert Lookup(t.store, LocalIdentity) == Lookup(s.store, LocalIdentity);
      assert Current(s, leave) && Completable(s, leave);
    }
  }

  /** A created key was never marked. */
  lemma CreateClear(cas: bool, s: State, e: Event)
    requires Clear(s) && e.Create? && Next(cas, s, e).Some?
    ensures var t := Next(cas, s, e).value;
            MarksCreated(t) && forall leave :: Current(t, leave) ==> Completable(t, leave)
  {
    var p, t := s.procs[e.pid], Next(cas, s, e).value;
    var o := if p.CreateKey? then p.operation else p.leave.replacementOperation;
    assert t.store == s.store && t.created == if o in s.created then s.created else s.created[o := e.issued];
    hide Next;
    forall h | Marked(t.store, h) ensures h in t.created.Values {
      var q :| q in s.created && s.created[q] == h;
      assert t.created[q] == h;
    }
    forall leave | Current(t, leave) ensures Completable(t, leave) {
      assert Current(s, leave) && Completable(s, leave);
    }
  }

  lemma ByLeaveStep(cas: bool, s: State, e: Event)
    requires Next(cas, s, e).Some? && !(e.Start? && e.proc.DeleteRead?)
    requires forall pid :: pid in s.procs ==> ByLeave(s.procs[pid])
    ensures forall pid :: pid in Next(cas, s, e).value.procs ==> ByLeave(Next(cas, s, e).value.procs[pid])
  {
    hide AfterRead, Marked, MayApply;
    if e.Commit? && e.applied {
      assert Applied(s, s.procs[e.pid]).procs == s.procs;
      hide Applied;
    }
    if e.Read? {
      ByLeaveRead(s, s.procs[e.pid], e.operation);
    }
  }

  lemma ByLeaveRead(s: State, p: Proc, generated: OperationId)
    requires ByLeave(p)
    ensures var c := AfterRead(s, p, generated);
            c.Some? && c.value.Goes? ==> ByLeave(c.value.proc)
  {
  }

  lemma {:induction false} RunClear(cas: bool, s: State, events: seq<Event>)
    requires Sound(cas, s) && Clear(s) && LeavesOnly(events) && Run(cas, s, events).Some?
    ensures Sound(cas, Run(cas, s, events).value) && Clear(Run(cas, s, events).value)
    decreases |events|
  {
    hide Sound, Clear, Next;
    if events != [] {
      var front, e := events[..|events| - 1], events[|events| - 1];
      RunClear(cas, s, front);
      var t := Run(cas, s, front).value;
      SoundStep(cas, t, e);
      ClearStep(cas, t, e);
    }
  }

  /** A leave can always be re-driven: over every run in which only leaves delete keys, from a store at
      rest, every pending leave can be completed, and a node that reopens completes it unless it is
      interrupted or meets a fault. */
  lemma PendingLeaveFinishes(cas: bool, s: State, events: seq<Event>, t: State, leave: Leave, pid: Pid)
    requires Guarded(cas, s) && IntentsOk(s) && MarksCreated(s)
    requires LeavesOnly(events) && Run(cas, s, events) == Some(t) && Current(t, leave) && pid !in t.procs
    ensures CanFinish(cas, t, leave)
    ensures var reopened := Next(cas, t, Start(pid, LeaveRead));
            reopened.Some? && DrivesHome(cas, reopened.value, pid, leave)
  {
    assert Inv(cas, s) && Sound(cas, s) && Clear(s);
    RunClear(cas, s, events);
    FinishFromRestart(cas, t, leave);
    RestartFits(cas, t, pid, leave);
    FitDrivesHome(cas, Next(cas, t, Start(pid, LeaveRead)).value, pid, leave);
  }

  // ---- Creation and deletion on their own ----

  ghost function At(s: State, pid: Pid, p: Proc): State
  {
    s.(procs := s.procs[pid := p])
  }

  lemma Onward(cas: bool, s: State, t: State, e: Event)
    requires Reachable(cas, s, t) && Next(cas, t, e).Some?
    ensures Reachable(cas, s, Next(cas, t, e).value)
  {
    hide Next;
    var events :| Run(cas, s, events) == Some(t);
    RunOneMore(cas, s, events, e);
  }

  /** An uninterrupted, fault-free creation ends with the identity of the created key, and its intent gone. */
  lemma CreationCompletes(cas: bool, s: State, node: Node, o: OperationId, h: Handle) returns (t: State)
    requires s.procs == map[] && LocalIdentity !in s.store && Unused(s, o, h)
    ensures Reachable(cas, s, t) && t.procs == map[]
    ensures t.store == s.store[LocalIdentity := Identity(node, o, h)] && h in t.held
  {
    var begun := CreationBegins(cas, s, node, o, h);
    var p := FinalizeCommit(node, o, h, begun.revision);
    ReadsOn(cas, s, begun, 0, 0, p);
    var ready := At(begun, 0, p);
    assert !Marked(ready.store, h);
    assert Admits(ready.store, FinalizeOps(node, o, h));
    FinalizeEffect(ready.store, node, o, h);
    CommittedNext(cas, ready, 0);
    t := Next(cas, ready, Commit(0, true, Committed)).value;
    Onward(cas, s, ready, Commit(0, true, Committed));
    assert t.store == s.store[LocalIdentity := Identity(node, o, h)];
  }

  lemma CreationBegins(cas: bool, s: State, node: Node, o: OperationId, h: Handle) returns (t: State)
    requires s.procs == map[] && LocalIdentity !in s.store && Unused(s, o, h)
    ensures Reachable(cas, s, t) && t.procs == map[0 := FinalizeRead(node, o, h)] && h in t.held
    ensures t.store == s.store[CreationIntent(o) := Creation(o, node)]
  {
    var p := CreateCommit(node, o, s.revision);
    var started := At(s, 0, p);
    assert Next(cas, s, Start(0, p)) == Some(started);
    assert Run(cas, s, []) == Some(s);
    Onward(cas, s, s, Start(0, p));
    SingleEffectHolds(started.store, CreateOps(node, o)[0]);
    CommittedNext(cas, started, 0);
    var e := Commit(0, true, Committed);
    var intended := Next(cas, started, e).value;
    Onward(cas, s, started, e);
    assert intended.procs == map[0 := CreateKey(node, o)];
    t := Next(cas, intended, Create(0, h, true)).value;
    Onward(cas, s, intended, Create(0, h, true));
    assert t.procs == map[0 := FinalizeRead(node, o, h)];
  }

  lemma ReadsOn(cas: bool, s: State, t: State, pid: Pid, generated: OperationId, q: Proc)
    requires Reachable(cas, s, t) && pid in t.procs && AfterRead(t, t.procs[pid], generated) == Some(Goes(q))
    ensures Next(cas, t, Read(pid, generated)) == Some(At(t, pid, q)) && Reachable(cas, s, At(t, pid, q))
  {
    hide AfterRead;
    Onward(cas, s, t, Read(pid, generated));
  }

  /** An uninterrupted, fault-free deletion of an unreferenced key ends with its tombstone and the key gone
      from the provider, whatever an earlier attempt left. */
  lemma DeletionCompletes(cas: bool, s: State, h: Handle) returns (t: State)
    requires s.procs == map[] && IdentityOk(s) && IntentsOk(s) && !Referenced(s, h)
    ensures Reachable(cas, s, t) && t.procs == map[] && Tombstone(h) in t.store
    ensures Tombstone(h) !in s.store ==> DeletionIntent(h) !in t.store && h !in t.held
  {
    var d := DeleteRead(h, Standalone);
    var started := At(s, 0, d);
    assert Next(cas, s, Start(0, d)) == Some(started);
    assert Run(cas, s, []) == Some(s);
    Onward(cas, s, s, Start(0, d));
    if Tombstone(h) in s.store {
      t := Next(cas, started, Read(0, 0)).value;
      Onward(cas, s, started, Read(0, 0));
      assert t.procs == map[];
    } else if DeletionIntent(h) in s.store {
      assert IntentOk(s.store, h);
      var o := s.store[DeletionIntent(h)].operation;
      ReadsOn(cas, s, started, 0, 0, ProviderDelete(h, o, true, Standalone));
      t := DeletionDrives(cas, s, At(started, 0, ProviderDelete(h, o, true, Standalone)), h, o, true);
    } else {
      t := DeletionInstalls(cas, s, started, h);
    }
  }

  lemma DeletionInstalls(cas: bool, s: State, started: State, h: Handle) returns (t: State)
    requires Reachable(cas, s, started) && started.procs == map[0 := DeleteRead(h, Standalone)]
    requires IdentityOk(started) && !Referenced(started, h) && !Marked(started.store, h)
    ensures Reachable(cas, s, t) && t.procs == map[] && Tombstone(h) in t.store
    ensures DeletionIntent(h) !in t.store && h !in t.held
  {
    hide AfterRead, Next, Reachable, IdentityOk, Referenced, PreparedOf;
    var p := InstallCommit(h, 0, LocalRecord(started), started.revision, Standalone);
    InstallRead(started, h);
    ReadsOn(cas, s, started, 0, 0, p);
    var ready := At(started, 0, p);
    InstallCondemns(cas, ready, p);
    CommittedNext(cas, ready, 0);
    Onward(cas, s, ready, Commit(0, true, Committed));
    var installed := Next(cas, ready, Commit(0, true, Committed)).value;
    assert installed.procs == map[0 := ProviderDelete(h, 0, false, Standalone)];
    hide Applied, MayApply;
    t := DeletionDrives(cas, s, installed, h, 0, false);
  }

  lemma InstallRead(s: State, h: Handle)
    requires IdentityOk(s) && !Referenced(s, h) && !Marked(s.store, h)
    ensures AfterRead(s, DeleteRead(h, Standalone), 0) ==
            Some(Goes(InstallCommit(h, 0, LocalRecord(s), s.revision, Standalone)))
  {
  }

  lemma InstallCondemns(cas: bool, s: State, p: Proc)
    requires p.InstallCommit? && p.pinned == LocalRecord(s) && p.base == s.revision && !Marked(s.store, p.handle)
    ensures MayApply(cas, s, p) && Condemned(Applied(s, p), p.handle, p.operation)
    ensures Applied(s, p).procs == s.procs
  {
    assert Admits(s.store, InstallOps(p.handle, p.operation, p.pinned));
    InstallEffect(s.store, p.handle, p.operation, p.pinned);
    hide Apply, InstallOps, Admits;
    assert Applied(s, p).store == s.store[DeletionIntent(p.handle) := Deletion(p.operation, p.handle)];
    assert Condemned(Applied(s, p), p.handle, p.operation);
  }

  lemma BurialBuries(cas: bool, s: State, p: Proc)
    requires p.BuryCommit? && p.base == s.revision && Condemned(s, p.handle, p.operation)
    ensures MayApply(cas, s, p) && Tombstone(p.handle) in Applied(s, p).store
    ensures DeletionIntent(p.handle) !in Applied(s, p).store
    ensures Applied(s, p).procs == s.procs && Applied(s, p).held == s.held
  {
    assert Admits(s.store, BuryOps(p.handle, p.operation));
    BuryEffect(s.store, p.handle, p.operation);
    hide Apply, BuryOps, Admits;
  }

  lemma DeletionDrives(cas: bool, s: State, condemned: State, h: Handle, o: OperationId, resumed: bool)
    returns (t: State)
    requires Reachable(cas, s, condemned) && condemned.procs == map[0 := ProviderDelete(h, o, resumed, Standalone)]
    requires Condemned(condemned, h, o)
    ensures Reachable(cas, s, t) && t.procs == map[] && Tombstone(h) in t.store
    ensures DeletionIntent(h) !in t.store && h !in t.held
  {
    var gone := KeyGone(cas, s, condemned, h, o, resumed);
    var p := BuryCommit(h, o, gone.revision, Standalone);
    ReadsOn(cas, s, gone, 0, 0, p);
    hide AfterRead, Next, Reachable;
    var ready := At(gone, 0, p);
    BurialBuries(cas, ready, p);
    CommittedNext(cas, ready, 0);
    Onward(cas, s, ready, Commit(0, true, Committed));
    t := Next(cas, ready, Commit(0, true, Committed)).value;
  }

  lemma KeyGone(cas: bool, s: State, condemned: State, h: Handle, o: OperationId, resumed: bool) returns (t: State)
    requires Reachable(cas, s, condemned) && condemned.procs == map[0 := ProviderDelete(h, o, resumed, Standalone)]
    requires Condemned(condemned, h, o)
    ensures Reachable(cas, s, t) && t.procs == map[0 := BuryRead(h, o, Standalone)] && h !in t.held
    ensures Condemned(t, h, o)
  {
    hide AfterRead, Committing, Reachable;
    var e := ProviderStep(0, true, true, true);
    t := Next(cas, condemned, e).value;
    Onward(cas, s, condemned, e);
    assert t.procs == map[0 := BuryRead(h, o, Standalone)] && t.store == condemned.store;
  }

  // ---- Re-driving on a live node ----

  /** The command of a running node asks for a local cluster before it looks for a pending leave. */
  ghost predicate CommandRuns(s: State)
  {
    exists key :: key in s.store && key.Domain? && key.family == LocalClusterPointer
  }

  /** While a leave is pending the command runs exactly as long as the pointer family is not wiped: once
      refused it stays refused, and only reopening drives the leave on. */
  lemma LiveRedriveExactly(cas: bool, s: State, t: State, leave: Leave)
    requires Guarded(cas, s) && Reachable(cas, s, t) && Current(t, leave)
    ensures CommandRuns(t) <==> exists u :: Reachable(cas, t, u) && Current(u, leave) && CommandRuns(u)
  {
    ReachableInv(cas, s, t);
    if CommandRuns(t) {
      assert Run(cas, t, []) == Some(t);
      assert Reachable(cas, t, t);
    }
    forall u | Reachable(cas, t, u) && Current(u, leave) && CommandRuns(u) ensures CommandRuns(t) {
      LaterInv(cas, t, u);
      var key :| key in u.store && key.Domain? && key.family == LocalClusterPointer;
      assert OnlyWiped(t, u);
    }
  }

  /** Every leave that can be finished comes through such a state: its last commit still to come, the
      pointer gone. If that commit fails, the live command is refused. */
  lemma LiveRedriveRefused(cas: bool, s: State, t: State, leave: Leave) returns (u: State)
    requires Guarded(cas, s) && IntentsOk(s) && Reachable(cas, s, t) && Current(t, leave) && Completable(t, leave)
    ensures Reachable(cas, t, u) && Current(u, leave) && !CommandRuns(u)
  {
    var events :| Run(cas, s, events) == Some(t);
    assert Inv(cas, s);
    RunSound(cas, s, events);
    var pid := FreshNumber(t.procs.Keys);
    RestartFits(cas, t, pid, leave);
    hide Sound, Next, Completable;
    u := DriveReachesCompletion(cas, t.(procs := t.procs[pid := LeaveRead]), pid, leave);
    ReachableLater(cas, t, Start(pid, LeaveRead), u);
    PointerWiped(cas, u, pid, leave);
  }

  lemma PointerWiped(cas: bool, s: State, pid: Pid, leave: Leave)
    requires Fit(cas, s, pid, leave) && s.procs[pid].CompleteCommit?
    ensures Current(s, leave) && !CommandRuns(s)
  {
    assert ProcOk(cas, s, s.procs[pid]);
  }

  // ---- With an additional caller of the deletion ----

  ghost predicate Stuck(s: State, leave: Leave)
  {
    && Current(s, leave) && HasNode(s, leave.formerNode)
    && leave.replacementOperation in s.created && Marked(s.store, s.created[leave.replacementOperation])
  }

  /** No transaction can move a stuck leave: the swap checks the mark, and completion needs the swap. */
  lemma StuckCommit(cas: bool, s: State, p: Proc, leave: Leave)
    requires Durable(cas, s) && ProcOk(cas, s, p) && MayApply(cas, s, p) && Stuck(s, leave)
    ensures Current(Applied(s, p), leave) && HasNode(Applied(s, p), leave.formerNode)
  {
    CommitEffect(cas, s, p, LeaveIntent);
    CommitEffect(cas, s, p, LocalIdentity);
    match p
    case FinalizeCommit(node, operation, handle, _) => FinalizeEffect(s.store, node, operation, handle);
    case SwapCommit(other, former, handle, _) => SwapEffect(s.store, other, former, handle);
    case _ =>
  }

  lemma StuckStep(cas: bool, s: State, e: Event, leave: Leave)
    requires Inv(cas, s) && Stuck(s, leave) && Next(cas, s, e).Some?
    ensures Inv(cas, Next(cas, s, e).value) && Stuck(Next(cas, s, e).value, leave)
  {
    StepKeeps(cas, s, e);
    var t := Next(cas, s, e).value;
    assert Marked(t.store, s.created[leave.replacementOperation]);
    if e.Commit? && e.applied {
      var p := s.procs[e.pid];
      assert ProcOk(cas, s, p);
      StuckCommit(cas, s, p, leave);
      assert t.store == Applied(s, p).store;
    } else {
      assert t.store == s.store;
    }
  }

  lemma {:induction false} StuckForever(cas: bool, s: State, events: seq<Event>, leave: Leave)
    requires Inv(cas, s) && Stuck(s, leave) && Run(cas, s, events).Some?
    ensures Inv(cas, Run(cas, s, events).value) && Stuck(Run(cas, s, events).value, leave)
    decreases |events|
  {
    hide Inv, Stuck, Next;
    if events != [] {
      StuckForever(cas, s, events[..|events| - 1], leave);
      StuckStep(cas, Run(cas, s, events[..|events| - 1]).value, events[|events| - 1], leave);
    }
  }

  /** Why deletions must be those of leaves: a call that asks for the deletion of the replacement key
      after its creation and before the swap leaves the leave stuck, since nothing refers to the key yet. */
  lemma LeaveCanGetStuck(cas: bool, s: State, leave: Leave, h: Handle) returns (t: State)
    requires Guarded(cas, s) && IntentsOk(s)
    requires AgreesToBegin(s, leave) && h !in s.created.Values && !Marked(s.store, h)
    ensures Reachable(cas, s, t) && Current(t, leave) && !Completable(t, leave)
  {
    assert Sound(cas, s);
    var begun := LeaveBegins(cas, s, leave);
    var created := LeaveCreates(cas, s, begun, leave, h);
    t := LeaveSticks(cas, s, created, leave, h);
  }

  /** The instance `pid` stands at `p`, with the leave pending. */
  ghost predicate Poised(cas: bool, s: State, pid: Pid, leave: Leave, p: Proc)
  {
    Sound(cas, s) && Current(s, leave) && pid in s.procs && s.procs[pid] == p
  }

  lemma ReadStep(cas: bool, s: State, pid: Pid, leave: Leave, p: Proc, generated: OperationId, q: Proc)
    requires Poised(cas, s, pid, leave, p) && AfterRead(s, p, generated) == Some(Goes(q))
    ensures Next(cas, s, Read(pid, generated)) == Some(At(s, pid, q))
    ensures Poised(cas, At(s, pid, q), pid, leave, q)
  {
    hide AfterRead, Sound;
    SoundStep(cas, s, Read(pid, generated));
  }

  lemma CommitStep(cas: bool, s: State, pid: Pid, leave: Leave, p: Proc, q: Proc)
    requires Poised(cas, s, pid, leave, p) && MayApply(cas, s, p) && AfterCommitted(p) == Goes(q)
    requires p.InstallCommit?
    ensures Next(cas, s, Commit(pid, true, Committed)) == Some(At(Applied(s, p), pid, q))
    ensures Poised(cas, At(Applied(s, p), pid, q), pid, leave, q)
  {
    assert ProcOk(cas, s, p);
    CommitEffect(cas, s, p, LeaveIntent);
    SoundStep(cas, s, Commit(pid, true, Committed));
    hide Sound, ProcOk;
  }

  lemma LeaveBegins(cas: bool, s: State, leave: Leave) returns (t: State)
    requires Sound(cas, s) && s.procs == map[] && LeaveIntent !in s.store && AgreesToBegin(s, leave)
    ensures Reachable(cas, s, t) && Sound(cas, t) && Current(t, leave) && HasNode(t, leave.formerNode)
    ensures t.procs == map[0 := LeaveJudge(leave)] && t.created == s.created
    ensures forall h :: Marked(t.store, h) == Marked(s.store, h)
    ensures leave.replacementNode != leave.formerNode
  {
    var p := BeginCommit(leave, s.revision);
    var e := Start(0, p);
    var s1 := s.(procs := map[0 := p]);
    assert Next(cas, s, e) == Some(s1);
    SoundStep(cas, s, e);
    assert Run(cas, s, []) == Some(s);
    Onward(cas, s, s, e);
    hide Sound, Run;
    var c := Commit(0, true, Committed);
    BeginCommits(cas, s1, leave);
    t := Next(cas, s1, c).value;
    hide Next;
    SoundStep(cas, s1, c);
    Onward(cas, s, s1, c);
  }

  lemma BeginCommits(cas: bool, s: State, leave: Leave)
    requires s.procs == map[0 := BeginCommit(leave, s.revision)] && LeaveIntent !in s.store && AgreesToBegin(s, leave)
    ensures var t := Next(cas, s, Commit(0, true, Committed));
            && t.Some? && t.value.procs == map[0 := LeaveJudge(leave)] && t.value.created == s.created
            && t.value.store == s.store[LeaveIntent := Leaving(leave)]
  {
    SingleEffectHolds(s.store, BeginOps(leave)[0]);
    CommittedNext(cas, s, 0);
    hide Next, Apply;
    var t := Next(cas, s, Commit(0, true, Committed)).value;
    assert t.procs == map[0 := LeaveJudge(leave)];
  }

  lemma LeaveCreates(cas: bool, s: State, begun: State, leave: Leave, h: Handle) returns (t: State)
    requires Reachable(cas, s, begun) && Sound(cas, begun) && Current(begun, leave) && HasNode(begun, leave.formerNode)
    requires begun.procs == map[0 := LeaveJudge(leave)]
    requires leave.replacementOperation !in begun.created && h !in begun.created.Values
    ensures Reachable(cas, s, t) && Sound(cas, t) && t.store == begun.store && t.procs.Keys == {0}
    ensures leave.replacementOperation in t.created && t.created[leave.replacementOperation] == h
  {
    hide Sound, Next, Reachable;
    ReadStep(cas, begun, 0, leave, LeaveJudge(leave), 0, LeaveKey(leave));
    Onward(cas, s, begun, Read(0, 0));
    var judged := At(begun, 0, LeaveKey(leave));
    var e := Create(0, h, true);
    KeyIssued(cas, judged, leave, h);
    t := Next(cas, judged, e).value;
    SoundStep(cas, judged, e);
    Onward(cas, s, judged, e);
  }

  lemma KeyIssued(cas: bool, s: State, leave: Leave, h: Handle)
    requires s.procs == map[0 := LeaveKey(leave)]
    requires leave.replacementOperation !in s.created && h !in s.created.Values
    ensures var t := Next(cas, s, Create(0, h, true));
            && t.Some? && t.value.store == s.store && t.value.procs.Keys == {0}
            && t.value.created == s.created[leave.replacementOperation := h]
  {
    hide AfterRead, AfterCommitted, AfterAborted, MayApply, Applied;
  }

  lemma LeaveSticks(cas: bool, s: State, created: State, leave: Leave, h: Handle) returns (t: State)
    requires Reachable(cas, s, created) && Sound(cas, created) && Current(created, leave)
    requires HasNode(created, leave.formerNode) && leave.formerNode != leave.replacementNode
    requires created.procs.Keys == {0}
    requires leave.replacementOperation in created.created && created.created[leave.replacementOperation] == h
    requires !Marked(created.store, h)
    ensures Reachable(cas, s, t) && Current(t, leave) && !Completable(t, leave)
  {
    var d := DeleteRead(h, Standalone);
    var e := Start(1, d);
    var asked := At(created, 1, d);
    assert Next(cas, created, e) == Some(asked);
    SoundStep(cas, created, e);
    Onward(cas, s, created, e);
    var local := asked.store[LocalIdentity];
    assert local.Identity? && local.handle != h;
    hide Sound, Next, Inv;
    var p := InstallCommit(h, 0, Some(local), asked.revision, Standalone);
    ReadStep(cas, asked, 1, leave, d, 0, p);
    Onward(cas, s, asked, Read(1, 0));
    t := HandleMarked(cas, s, At(asked, 1, p), leave, h, local);
  }

  lemma HandleMarked(cas: bool, s: State, ready: State, leave: Leave, h: Handle, local: Record) returns (t: State)
    requires Reachable(cas, s, ready)
    requires Poised(cas, ready, 1, leave, InstallCommit(h, 0, Some(local), ready.revision, Standalone))
    requires Lookup(ready.store, LocalIdentity) == Some(local) && !HasNode(ready, leave.replacementNode)
    requires leave.replacementOperation in ready.created && ready.created[leave.replacementOperation] == h
    requires !Marked(ready.store, h)
    ensures Reachable(cas, s, t) && Current(t, leave) && !Completable(t, leave)
  {
    hide Sound, Next, Reachable;
    var p := ready.procs[1];
    assert Admits(ready.store, InstallOps(h, 0, Some(local)));
    var q := ProviderDelete(h, 0, false, Standalone);
    CommitStep(cas, ready, 1, leave, p, q);
    t := At(Applied(ready, p), 1, q);
    Onward(cas, s, ready, Commit(1, true, Committed));
    InstallEffect(ready.store, h, 0, Some(local));
  }

  /** Whoever deletes what: from every reachable state a pending leave can be completed, and by leaves
      alone, when its swap has happened or its replacement handle is not marked; otherwise no run at all
      completes it. */
  lemma LeaveCanFinishExactly(cas: bool, s: State, t: State, leave: Leave)
    requires Guarded(cas, s) && IntentsOk(s) && Reachable(cas, s, t) && Current(t, leave)
    ensures Completable(t, leave) ==> CanFinish(cas, t, leave)
    ensures !Completable(t, leave) ==> forall u :: Reachable(cas, t, u) ==> leave !in u.finished
  {
    var events :| Run(cas, s, events) == Some(t);
    assert Inv(cas, s);
    RunSound(cas, s, events);
    if Completable(t, leave) {
      FinishFromRestart(cas, t, leave);
    } else {
      forall u | Reachable(cas, t, u) ensures leave !in u.finished {
        var more :| Run(cas, t, more) == Some(u);
        StuckForever(cas, t, more, leave);
      }
    }
  }
}
