/**
 Driving a pending leave. One instance that is not interrupted and meets no fault carries a
 completable leave to its end, whatever the store looked like when it started: every such drive is
 bounded by a rank of the state it starts from, and stops only when the leave is finished.
 */
module CustodyDrive {
  import opened Wrappers
  import opened Collections
  import opened ConditionalStore
  import opened Custody
  import opened CustodySafety
  import opened CustodyEffects
  import opened CustodyRuns

  /** When the pending leave can still be driven to its end. */
  ghost predicate Completable(s: State, leave: Leave)
  {
    || HasNode(s, leave.replacementNode)
    || leave.replacementOperation !in s.created
    || !Marked(s.store, s.created[leave.replacementOperation])
  }

  /** The former handle has its deletion intent, under this operation, and no tombstone yet. */
  ghost predicate Condemned(s: State, h: Handle, o: OperationId)
  {
    Lookup(s.store, DeletionIntent(h)) == Some(Deletion(o, h)) && Tombstone(h) !in s.store
  }

  /** An instance that stands at `p` drives this leave, on what the store still says. */
  ghost predicate FitProc(s: State, p: Proc, leave: Leave)
  {
    match p
    case LeaveRead => Completable(s, leave)
    case LeaveJudge(l) => l == leave && Completable(s, leave)
    case LeaveKey(l) => l == leave && HasNode(s, leave.formerNode) && Completable(s, leave)
    case SwapRead(l, h) => l == leave && HasNode(s, leave.formerNode) && !Marked(s.store, h)
    case SwapCommit(l, former, h, base) =>
      l == leave && base == s.revision && LocalRecord(s) == Some(former) && !Marked(s.store, h)
    case WipeRead(l, _) => l == leave
    case WipeCommit(l, family, batch, base) => l == leave && base == s.revision && WipeBatch(s.store, family, batch)
    case DeleteRead(_, purpose) => purpose == ForLeave(leave)
    case InstallCommit(h, _, pinned, base, purpose) =>
      purpose == ForLeave(leave) && base == s.revision && pinned == LocalRecord(s) && !Marked(s.store, h)
    case ProviderDelete(h, o, _, purpose) => purpose == ForLeave(leave) && Condemned(s, h, o)
    case BuryRead(h, o, purpose) => purpose == ForLeave(leave) && Condemned(s, h, o)
    case BuryCommit(h, o, base, purpose) => purpose == ForLeave(leave) && base == s.revision && Condemned(s, h, o)
    case BuryAccept(h, o, purpose) =>
      && purpose == ForLeave(leave)
      && (Tombstone(h) in s.store && DeletionIntent(h) !in s.store ==> s.store[Tombstone(h)] == Deleted(o, h))
    case CompleteRead(l) => l == leave
    case CompleteCommit(l, base) => l == leave && base == s.revision
    case _ => false
  }

  ghost predicate Fit(cas: bool, s: State, pid: Pid, leave: Leave)
  {
    Sound(cas, s) && Current(s, leave) && pid in s.procs && FitProc(s, s.procs[pid], leave)
  }

  ghost function DomainKeys(store: Entries): set<Key>
  {
    set key | key in store && key.Domain?
  }

  /** How many steps a drive has left at most. */
  ghost function Rank(s: State, p: Proc): nat
  {
    var wiping := 2 * |DomainKeys(s.store)|;
    match p
    case CompleteCommit(_, _) => 1
    case CompleteRead(_) => 2
    case BuryCommit(_, _, _, _) => 3
    case BuryRead(_, _, _) => 4
    case ProviderDelete(_, _, _, _) => 5
    case InstallCommit(_, _, _, _, _) => 6
    case DeleteRead(_, _) => 7
    case BuryAccept(_, _, _) => 8
    case WipeCommit(_, family, _, _) => 6 + (if family < FAMILIES then FAMILIES - family else 0) + wiping
    case WipeRead(_, family) => 7 + (if family < FAMILIES then FAMILIES - family else 0) + wiping
    case SwapCommit(_, _, _, _) => 8 + FAMILIES + wiping
    case SwapRead(_, _) => 9 + FAMILIES + wiping
    case LeaveKey(_) => 10 + FAMILIES + wiping
    case LeaveJudge(_) => 11 + FAMILIES + wiping
    case LeaveRead => 12 + FAMILIES + wiping
    case _ => 0
  }

  /** A step of the instance that meets no fault: the provider creates and deletes when asked, under a
      handle never used before, and the store applies and reports every commit. */
  ghost predicate Honest(s: State, pid: Pid, e: Event)
  {
    match e
    case Read(q, _) => q == pid
    case Wipe(q, _) => q == pid
    case Create(q, issued, present) => q == pid && present && !Marked(s.store, issued)
    case ProviderStep(q, _, _, absent) => q == pid && absent
    case Commit(q, applied, report) => q == pid && applied && report.Committed?
    case _ => false
  }

  // ---- Reads ----

  ghost predicate ReadsOn(s: State, p: Proc, leave: Leave, generated: OperationId)
  {
    var c := AfterRead(s, p, generated);
    c.Some? ==> c.value.Goes? && FitProc(s, c.value.proc, leave) && Rank(s, c.value.proc) < Rank(s, p)
  }

  lemma FitDelete(cas: bool, s: State, p: Proc, leave: Leave, generated: OperationId)
    requires Sound(cas, s) && Current(s, leave) && ProcOk(cas, s, p) && FitProc(s, p, leave) && p.DeleteRead?
    ensures ReadsOn(s, p, leave, generated)
  {
    assert HasNode(s, leave.replacementNode) && s.store[LocalIdentity].handle != leave.formerHandle;
    assert IntentOk(s.store, p.handle);
    hide Sound, ProcOk, DomainKeys;
  }

  lemma FitRead(cas: bool, s: State, p: Proc, leave: Leave, generated: OperationId)
    requires Sound(cas, s) && Current(s, leave) && ProcOk(cas, s, p) && FitProc(s, p, leave)
    ensures ReadsOn(s, p, leave, generated)
  {
    if p.DeleteRead? {
      FitDelete(cas, s, p, leave, generated);
    } else if p.LeaveRead? || p.LeaveJudge? || p.SwapRead? {
      FitLeaving(s, p, leave, generated);
    } else {
      assert p.WipeRead? ==> p.family < FAMILIES;
      hide Sound, DomainKeys, ProcOk;
    }
  }

  lemma FitLeaving(s: State, p: Proc, leave: Leave, generated: OperationId)
    requires LeaveOk(s) && Current(s, leave) && FitProc(s, p, leave)
    requires p.LeaveRead? || p.LeaveJudge? || p.SwapRead?
    ensures ReadsOn(s, p, leave, generated)
  {
    hide DomainKeys;
  }

  // ---- Commits ----

  lemma FitMayApply(cas: bool, s: State, p: Proc, leave: Leave)
    requires Sound(cas, s) && Current(s, leave) && ProcOk(cas, s, p) && FitProc(s, p, leave) && PreparedOf(p).Some?
    ensures MayApply(cas, s, p)
  {
    hide Sound;
  }

  ghost predicate Closer(s: State, p: Proc, leave: Leave)
    requires PreparedOf(p).Some?
  {
    var t, c := Applied(s, p), AfterCommitted(p);
    Current(t, leave) && c.Goes? && FitProc(t, c.proc, leave) && Rank(t, c.proc) < Rank(s, p)
  }

  lemma FitInstall(cas: bool, s: State, p: Proc, leave: Leave)
    requires Current(s, leave) && ProcOk(cas, s, p) && FitProc(s, p, leave) && MayApply(cas, s, p) && p.InstallCommit?
    ensures Closer(s, p, leave)
  {
    InstallEffect(s.store, p.handle, p.operation, p.pinned);
    hide Apply, InstallOps, Admits, DomainKeys;
    assert Applied(s, p).store == s.store[DeletionIntent(p.handle) := Deletion(p.operation, p.handle)];
    assert Condemned(Applied(s, p), p.handle, p.operation);
  }

  lemma FitSwap(cas: bool, s: State, p: Proc, leave: Leave)
    requires Current(s, leave) && FitProc(s, p, leave) && MayApply(cas, s, p) && p.SwapCommit?
    ensures Closer(s, p, leave)
  {
    SwapEffect(s.store, leave, p.former, p.handle);
    hide Apply;
    assert DomainKeys(Applied(s, p).store) == DomainKeys(s.store);
  }

  lemma FitWipe(cas: bool, s: State, p: Proc, leave: Leave)
    requires Current(s, leave) && ProcOk(cas, s, p) && FitProc(s, p, leave) && MayApply(cas, s, p) && p.WipeCommit?
    ensures Closer(s, p, leave)
  {
    assert p.family < FAMILIES && p.leave == leave;
    assert WipeBatch(s.store, p.family, p.batch);
    WipeProgress(s, p, leave);
    hide ProcOk, DomainKeys, WipeBatch, MayApply, Applied;
  }

  lemma WipeProgress(s: State, p: Proc, leave: Leave)
    requires Current(s, leave) && p.WipeCommit? && WipeBatch(s.store, p.family, p.batch)
    ensures Current(Applied(s, p), leave) && |DomainKeys(Applied(s, p).store)| < |DomainKeys(s.store)|
  {
    WipeEffect(s.store, p.batch);
    BatchShrinks(s.store, p.family, p.batch);
    SubsetSize(DomainKeys(Apply(s.store, p.batch)), DomainKeys(s.store));
  }

  /** The instance's next transaction leaves it fit and closer to the end. */
  lemma FitCommit(cas: bool, s: State, p: Proc, leave: Leave)
    requires Current(s, leave) && ProcOk(cas, s, p) && FitProc(s, p, leave)
    requires MayApply(cas, s, p) && !p.CompleteCommit?
    ensures Closer(s, p, leave)
  {
    match p
    case InstallCommit(_, _, _, _, _) => FitInstall(cas, s, p, leave);
    case BuryCommit(_, _, _, _) => CommitEffect(cas, s, p, LeaveIntent);
    case SwapCommit(_, _, _, _) => FitSwap(cas, s, p, leave);
    case WipeCommit(_, _, _, _) => FitWipe(cas, s, p, leave);
  }

  // ---- Wiping ----

  /** A batch over some of the stored keys: all of them, or as many as the bound allows. */
  lemma {:induction false} PickBatch(store: Entries, keys: set<Key>, bound: nat) returns (batch: Operations)
    requires forall key :: key in keys ==> key in store
    ensures |batch| == if |keys| <= bound then |keys| else bound
    ensures forall i :: 0 <= i < |batch| ==>
              batch[i].Delete? && batch[i].key in keys && ConditionMatches(store, batch[i])
    ensures forall i, j :: 0 <= i < j < |batch| ==> batch[i].key != batch[j].key
    ensures |batch| < bound ==> forall key :: key in keys ==> Wiped(batch, key)
    decreases bound
  {
    batch := [];
    if keys != {} && bound > 0 {
      var key :| key in keys;
      var rest := PickBatch(store, keys - {key}, bound - 1);
      batch := rest + [Delete(key, store[key])];
      assert batch[|rest|].key == key;
      forall other | other in keys && |batch| < bound ensures Wiped(batch, other) {
        if other != key {
          assert Wiped(rest, other);
          var i :| 0 <= i < |rest| && rest[i].key == other;
          assert batch[i].key == other;
        }
      }
    }
  }

  lemma FullBatch(store: Entries, family: nat) returns (batch: Operations)
    requires !FamilyEmpty(store, family)
    ensures WipeBatch(store, family, batch)
  {
    var keys := set key | key in store && key.Domain? && Position(key.family) == family;
    batch := PickBatch(store, keys, WIPE_BATCH);
    var key :| key in store && key.Domain? && Position(key.family) == family;
    assert key in keys;
  }

  lemma {:induction false} WipeRemoves(store: Entries, batch: Operations, i: nat)
    requires forall k :: 0 <= k < |batch| ==> batch[k].Delete?
    requires i < |batch|
    ensures batch[i].key !in Apply(store, batch)
  {
    if i < |batch| - 1 {
      WipeRemoves(store, batch[..|batch| - 1], i);
    }
  }

  lemma BatchShrinks(store: Entries, family: nat, batch: Operations)
    requires WipeBatch(store, family, batch)
    ensures DomainKeys(Apply(store, batch)) < DomainKeys(store)
  {
    WipeEffect(store, batch);
    WipeRemoves(store, batch, 0);
    assert batch[0].key in DomainKeys(store);
  }

  lemma UnusedHandle(s: State) returns (h: Handle)
    ensures h !in s.created.Values && !Marked(s.store, h)
  {
    var marks := set key | key in s.store && (key.DeletionIntent? || key.Tombstone?) :: key.handle;
    h := FreshNumber(s.created.Values + marks);
    assert DeletionIntent(h).handle !in marks && Tombstone(h).handle !in marks;
    assert forall key :: key in s.store && (key.DeletionIntent? || key.Tombstone?) ==> key.handle in marks;
  }

  // ---- One step, any fault-free step ----

  ghost predicate DrivenOn(cas: bool, s: State, pid: Pid, leave: Leave, t: State)
    requires pid in s.procs
  {
    if s.procs[pid].CompleteCommit? then leave in t.finished && pid !in t.procs
    else Fit(cas, t, pid, leave) && Rank(t, t.procs[pid]) < Rank(s, s.procs[pid])
  }

  /** Every fault-free step of a fit instance finishes the leave or leaves it fit and closer to the end. */
  lemma HonestStep(cas: bool, s: State, pid: Pid, leave: Leave, e: Event)
    requires Fit(cas, s, pid, leave) && Honest(s, pid, e) && Next(cas, s, e).Some?
    ensures DrivenOn(cas, s, pid, leave, Next(cas, s, e).value)
  {
    SoundStep(cas, s, e);
    assert ProcOk(cas, s, s.procs[pid]);
    hide Sound, ProcOk, Next, FitProc, Rank, DrivenOn;
    match e
    case Read(_, _) => HonestRead(cas, s, pid, leave, e);
    case Wipe(_, _) => HonestWipe(cas, s, pid, leave, e);
    case Create(_, _, _) => HonestCreate(cas, s, pid, leave, e);
    case ProviderStep(_, _, _, _) => HonestDelete(cas, s, pid, leave, e);
    case Commit(_, _, _) => HonestCommit(cas, s, pid, leave, e);
  }

  lemma HonestWipe(cas: bool, s: State, pid: Pid, leave: Leave, e: Event)
    requires Fit(cas, s, pid, leave) && e.Wipe? && Honest(s, pid, e) && Next(cas, s, e).Some?
    requires Sound(cas, Next(cas, s, e).value)
    ensures DrivenOn(cas, s, pid, leave, Next(cas, s, e).value)
  {
    hide Sound, WipeBatch, DomainKeys;
  }

  lemma HonestDelete(cas: bool, s: State, pid: Pid, leave: Leave, e: Event)
    requires Fit(cas, s, pid, leave) && e.ProviderStep? && Honest(s, pid, e) && Next(cas, s, e).Some?
    requires Sound(cas, Next(cas, s, e).value)
    ensures DrivenOn(cas, s, pid, leave, Next(cas, s, e).value)
  {
    hide Sound, DomainKeys;
    var p, t := s.procs[pid], Next(cas, s, e).value;
    assert t.store == s.store && t.procs[pid] == BuryRead(p.handle, p.operation, p.purpose);
  }

  lemma HonestRead(cas: bool, s: State, pid: Pid, leave: Leave, e: Event)
    requires Fit(cas, s, pid, leave) && e.Read? && Honest(s, pid, e) && Next(cas, s, e).Some?
    requires Sound(cas, Next(cas, s, e).value) && ProcOk(cas, s, s.procs[pid])
    ensures DrivenOn(cas, s, pid, leave, Next(cas, s, e).value)
  {
    var p := s.procs[pid];
    FitRead(cas, s, p, leave, e.operation);
    var q := AfterRead(s, p, e.operation).value.proc;
    hide AfterRead, Sound, ProcOk, FitProc, Rank;
    assert Next(cas, s, e).value == s.(procs := s.procs[pid := q]);
    hide Next;
    FitElsewhere(s, s.(procs := s.procs[pid := q]), q, leave);
    assert !p.CompleteCommit?;
  }

  lemma HonestCommit(cas: bool, s: State, pid: Pid, leave: Leave, e: Event)
    requires Fit(cas, s, pid, leave) && e.Commit? && Honest(s, pid, e) && Next(cas, s, e).Some?
    requires Sound(cas, Next(cas, s, e).value) && ProcOk(cas, s, s.procs[pid])
    ensures DrivenOn(cas, s, pid, leave, Next(cas, s, e).value)
  {
    var p := s.procs[pid];
    assert MayApply(cas, s, p);
    CommittedNext(cas, s, pid);
    hide Next, Sound;
    if !p.CompleteCommit? {
      FitCommit(cas, s, p, leave);
      hide FitProc, Rank, MayApply, ProcOk;
      FitElsewhere(Applied(s, p), Continue(Applied(s, p), pid, AfterCommitted(p)), AfterCommitted(p).proc, leave);
    }
  }

  /** Fitness looks at nothing but the store, its revision and the keys created. */
  lemma FitElsewhere(s: State, t: State, p: Proc, leave: Leave)
    requires t.store == s.store && t.revision == s.revision && t.created == s.created
    requires FitProc(s, p, leave)
    ensures FitProc(t, p, leave) && Rank(t, p) == Rank(s, p) && (Current(s, leave) <==> Current(t, leave))
  {
  }

  lemma HonestCreate(cas: bool, s: State, pid: Pid, leave: Leave, e: Event)
    requires Fit(cas, s, pid, leave) && e.Create? && Honest(s, pid, e) && Next(cas, s, e).Some?
    requires Sound(cas, Next(cas, s, e).value) && ProcOk(cas, s, s.procs[pid])
    ensures DrivenOn(cas, s, pid, leave, Next(cas, s, e).value)
  {
    assert s.procs[pid] == LeaveKey(leave) && !HasNode(s, leave.replacementNode);
    hide Sound, DomainKeys;
    var t := Next(cas, s, e).value;
    var h := t.created[leave.replacementOperation];
    assert t.procs[pid] == SwapRead(leave, h) && t.store == s.store;
    assert !Marked(t.store, h);
  }

  /** A fit instance always has such a step. */
  lemma HonestEnabled(cas: bool, s: State, pid: Pid, leave: Leave) returns (e: Event)
    requires Fit(cas, s, pid, leave)
    ensures Honest(s, pid, e) && Next(cas, s, e).Some?
  {
    var p := s.procs[pid];
    assert ProcOk(cas, s, p);
    if PreparedOf(p).Some? {
      FitMayApply(cas, s, p, leave);
      CommittedNext(cas, s, pid);
      e := Commit(pid, true, Committed);
    } else if p.WipeRead? && !FamilyEmpty(s.store, p.family) {
      var batch := FullBatch(s.store, p.family);
      e := Wipe(pid, batch);
    } else if p.LeaveKey? {
      var issued := UnusedHandle(s);
      e := Create(pid, issued, true);
    } else if p.ProviderDelete? {
      e := ProviderStep(pid, true, true, true);
    } else {
      e := Read(pid, 0);
    }
  }

  /** A retried commit: when an install, a burial or a wipe batch is reported aborted, whether it was
      applied or not, the instance goes on and is fit, to read the store again. */
  lemma AbortedStaysFit(cas: bool, s: State, pid: Pid, leave: Leave, applied: bool)
    requires Fit(cas, s, pid, leave) && Next(cas, s, Commit(pid, applied, Aborted)).Some?
    requires s.procs[pid].InstallCommit? || s.procs[pid].BuryCommit? || s.procs[pid].WipeCommit?
    ensures Fit(cas, Next(cas, s, Commit(pid, applied, Aborted)).value, pid, leave)
  {
    var p, e := s.procs[pid], Commit(pid, applied, Aborted);
    SoundStep(cas, s, e);
    assert ProcOk(cas, s, p);
    if applied {
      AbortedButApplied(cas, s, p, leave);
    }
    hide Sound, ProcOk, MayApply, Applied;
  }

  lemma AbortedButApplied(cas: bool, s: State, p: Proc, leave: Leave)
    requires Current(s, leave) && ProcOk(cas, s, p) && FitProc(s, p, leave) && MayApply(cas, s, p)
    requires p.InstallCommit? || p.BuryCommit? || p.WipeCommit?
    ensures Current(Applied(s, p), leave) && AfterAborted(p).Goes?
    ensures FitProc(Applied(s, p), AfterAborted(p).proc, leave)
    ensures Applied(s, p).procs == s.procs
  {
    if p.BuryCommit? {
      BuriedAnyway(s, p, leave);
    } else {
      IntentKept(cas, s, p, leave);
    }
    hide ProcOk, MayApply, WipeBatch;
  }

  lemma BuriedAnyway(s: State, p: Proc, leave: Leave)
    requires Current(s, leave) && p.BuryCommit? && Admits(s.store, BuryOps(p.handle, p.operation))
    ensures Current(Applied(s, p), leave)
    ensures Lookup(Applied(s, p).store, Tombstone(p.handle)) == Some(Deleted(p.operation, p.handle))
  {
    BuryEffect(s.store, p.handle, p.operation);
    hide Apply, BuryOps, Admits;
  }

  lemma IntentKept(cas: bool, s: State, p: Proc, leave: Leave)
    requires Current(s, leave) && ProcOk(cas, s, p) && MayApply(cas, s, p) && (p.InstallCommit? || p.WipeCommit?)
    ensures Current(Applied(s, p), leave)
  {
    if p.InstallCommit? {
      InstallFrame(s.store, p.handle, p.operation, p.pinned);
    } else {
      WipeEffect(s.store, p.batch);
    }
    hide Apply, InstallOps, Admits, Marked;
  }

  // ---- Whole drives ----

  /** Events of one instance only, none of them a fault. */
  ghost predicate HonestRun(cas: bool, s: State, pid: Pid, events: seq<Event>)
    decreases |events|
  {
    events != [] ==>
      var front := events[..|events| - 1];
      HonestRun(cas, s, pid, front) && Run(cas, s, front).Some? &&
      Honest(Run(cas, s, front).value, pid, events[|events| - 1])
  }

  lemma {:induction false} DriveKeeps(cas: bool, s: State, pid: Pid, leave: Leave, events: seq<Event>)
    requires Fit(cas, s, pid, leave) && HonestRun(cas, s, pid, events) && Run(cas, s, events).Some?
    ensures var t := Run(cas, s, events).value;
            if pid in t.procs then Fit(cas, t, pid, leave) && |events| + Rank(t, t.procs[pid]) <= Rank(s, s.procs[pid])
            else leave in t.finished && |events| <= Rank(s, s.procs[pid])
    decreases |events|
  {
    assert pid in s.procs;
    hide Fit, Rank, Honest;
    if events != [] {
      var front, e := events[..|events| - 1], events[|events| - 1];
      DriveKeeps(cas, s, pid, leave, front);
      var t := Run(cas, s, front).value;
      HonestPid(cas, t, pid, e);
      HonestStep(cas, t, pid, leave, e);
      if t.procs[pid].CompleteCommit? {
        CompletingRank(t, t.procs[pid]);
      } else {
        FitRuns(cas, Next(cas, t, e).value, pid, leave);
      }
    }
  }

  lemma HonestPid(cas: bool, s: State, pid: Pid, e: Event)
    requires Honest(s, pid, e) && Next(cas, s, e).Some?
    ensures pid in s.procs
  {
  }

  lemma FitRuns(cas: bool, s: State, pid: Pid, leave: Leave)
    requires Fit(cas, s, pid, leave)
    ensures pid in s.procs
  {
  }

  lemma CompletingRank(s: State, p: Proc)
    requires p.CompleteCommit?
    ensures Rank(s, p) == 1
  {
  }

  /** An uninterrupted, fault-free drive so far: within the bound, and finished or able to go on. */
  ghost predicate OnCourse(cas: bool, s: State, pid: Pid, leave: Leave, drive: seq<Event>)
    requires Run(cas, s, drive).Some?
  {
    var t := Run(cas, s, drive).value;
    && |drive| <= 12 + FAMILIES + 2 * |DomainKeys(s.store)|
    && (leave in t.finished || exists e :: Honest(t, pid, e) && Next(cas, t, e).Some?)
  }

  /** Every drive of the instance is bounded by the entries there are to wipe, and one that cannot go on
      has finished its leave. */
  ghost predicate DrivesHome(cas: bool, s: State, pid: Pid, leave: Leave)
  {
    forall drive :: HonestRun(cas, s, pid, drive) && Run(cas, s, drive).Some? ==> OnCourse(cas, s, pid, leave, drive)
  }

  lemma FitDrivesHome(cas: bool, s: State, pid: Pid, leave: Leave)
    requires Fit(cas, s, pid, leave)
    ensures DrivesHome(cas, s, pid, leave)
  {
    RankBound(s, s.procs[pid]);
    forall drive | HonestRun(cas, s, pid, drive) && Run(cas, s, drive).Some?
      ensures OnCourse(cas, s, pid, leave, drive)
    {
      hide Fit, Rank, Honest, Next, Run, HonestRun;
      DriveKeeps(cas, s, pid, leave, drive);
      var t := Run(cas, s, drive).value;
      if pid in t.procs {
        var e := HonestEnabled(cas, t, pid, leave);
      }
    }
  }

  lemma RankBound(s: State, p: Proc)
    ensures Rank(s, p) <= 12 + FAMILIES + 2 * |DomainKeys(s.store)|
  {
    hide DomainKeys;
  }

  // ---- From any pending leave ----

  /** No call asks for the deletion of a key on its own account; leaves delete their former keys. */
  ghost predicate LeavesOnly(events: seq<Event>)
  {
    forall i :: 0 <= i < |events| ==> !(events[i].Start? && events[i].proc.DeleteRead?)
  }

  ghost predicate FinishedBy(cas: bool, s: State, leave: Leave, events: seq<Event>)
  {
    LeavesOnly(events) && Run(cas, s, events).Some? && leave in Run(cas, s, events).value.finished
  }

  ghost predicate CanFinish(cas: bool, s: State, leave: Leave)
  {
    exists events :: FinishedBy(cas, s, leave, events)
  }

  lemma {:induction false} RunFrom(cas: bool, s: State, e: Event, events: seq<Event>)
    requires Next(cas, s, e).Some?
    ensures Run(cas, s, [e] + events) == Run(cas, Next(cas, s, e).value, events)
    decreases |events|
  {
    hide Next;
    if events == [] {
      assert [e] + events == [e] && [e][..0] == [];
      assert Run(cas, s, []) == Some(s);
    } else {
      var front := events[..|events| - 1];
      RunFrom(cas, s, e, front);
      assert ([e] + events)[..|events|] == [e] + front;
    }
  }

  lemma FinishLater(cas: bool, s: State, e: Event, leave: Leave)
    requires Next(cas, s, e).Some? && CanFinish(cas, Next(cas, s, e).value, leave)
    requires !(e.Start? && e.proc.DeleteRead?)
    ensures CanFinish(cas, s, leave)
  {
    hide Next, Run;
    var events :| FinishedBy(cas, Next(cas, s, e).value, leave, events);
    RunFrom(cas, s, e, events);
    assert FinishedBy(cas, s, leave, [e] + events);
  }

  lemma {:induction false} DriveFinishes(cas: bool, s: State, pid: Pid, leave: Leave)
    requires Fit(cas, s, pid, leave)
    ensures CanFinish(cas, s, leave)
    decreases Rank(s, s.procs[pid])
  {
    hide Fit, Rank, FitProc;
    var e := HonestEnabled(cas, s, pid, leave);
    HonestStep(cas, s, pid, leave, e);
    var t := Next(cas, s, e).value;
    hide Next;
    if !s.procs[pid].CompleteCommit? {
      DriveFinishes(cas, t, pid, leave);
    } else {
      assert Run(cas, t, []) == Some(t);
      assert FinishedBy(cas, t, leave, []);
    }
    FinishLater(cas, s, e, leave);
  }

  /** Reopening starts a fit instance. */
  lemma RestartFits(cas: bool, s: State, pid: Pid, leave: Leave)
    requires Sound(cas, s) && Current(s, leave) && Completable(s, leave) && pid !in s.procs
    ensures var t := Next(cas, s, Start(pid, LeaveRead));
            t == Some(s.(procs := s.procs[pid := LeaveRead])) && Fit(cas, t.value, pid, leave)
  {
    SoundStep(cas, s, Start(pid, LeaveRead));
    hide Sound;
  }

  lemma FinishFromRestart(cas: bool, s: State, leave: Leave)
    requires Sound(cas, s) && Current(s, leave) && Completable(s, leave)
    ensures CanFinish(cas, s, leave)
  {
    var pid := FreshNumber(s.procs.Keys);
    RestartFits(cas, s, pid, leave);
    hide Next, Fit, Sound, Completable;
    DriveFinishes(cas, s.(procs := s.procs[pid := LeaveRead]), pid, leave);
    FinishLater(cas, s, Start(pid, LeaveRead), leave);
  }

  lemma ReachableLater(cas: bool, s: State, e: Event, t: State)
    requires Next(cas, s, e).Some? && Reachable(cas, Next(cas, s, e).value, t)
    ensures Reachable(cas, s, t)
  {
    hide Next, Run;
    var events :| Run(cas, Next(cas, s, e).value, events) == Some(t);
    RunFrom(cas, s, e, events);
  }

  /** Every drive passes the point where only its last commit is left. */
  lemma {:induction false} DriveReachesCompletion(cas: bool, s: State, pid: Pid, leave: Leave) returns (t: State)
    requires Fit(cas, s, pid, leave)
    ensures Reachable(cas, s, t) && Fit(cas, t, pid, leave) && t.procs[pid].CompleteCommit?
    decreases Rank(s, s.procs[pid])
  {
    FitRuns(cas, s, pid, leave);
    hide Fit, Rank, FitProc;
    if s.procs[pid].CompleteCommit? {
      t := s;
      assert Run(cas, s, []) == Some(s);
    } else {
      var e := HonestEnabled(cas, s, pid, leave);
      HonestStep(cas, s, pid, leave, e);
      hide Next;
      t := DriveReachesCompletion(cas, Next(cas, s, e).value, pid, leave);
      ReachableLater(cas, s, e, t);
    }
  }
}
