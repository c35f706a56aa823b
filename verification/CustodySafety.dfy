/**
 Safety of key custody and leave, step by step: the invariant, what any step may change, and the proof
 that every step keeps both.
 */
module CustodySafety {
  import opened Wrappers
  import opened ConditionalStore
  import opened Custody

  // ---- The invariant ----

  ghost predicate Current(s: State, leave: Leave)
  {
    LeaveIntent in s.store && s.store[LeaveIntent] == Leaving(leave)
  }

  ghost predicate Known(s: State, leave: Leave)
  {
    Current(s, leave) || leave in s.finished
  }

  ghost predicate HasNode(s: State, node: Node)
  {
    LocalIdentity in s.store && s.store[LocalIdentity].Identity? && s.store[LocalIdentity].node == node
  }

  /** The swap of this leave has happened. */
  ghost predicate Moved(s: State, leave: Leave)
  {
    leave in s.finished || (Current(s, leave) && HasNode(s, leave.replacementNode))
  }

  ghost predicate WipedBelow(s: State, family: nat)
  {
    forall key :: key in s.store && key.Domain? ==> Position(key.family) >= family
  }

  /** What a wipe has reached so far. It is owed only while its leave is pending. */
  ghost predicate WipedFor(s: State, leave: Leave, family: nat)
  {
    Current(s, leave) ==> WipedBelow(s, family)
  }

  ghost predicate IdentityOk(s: State)
  {
    LocalIdentity in s.store ==>
      var local := s.store[LocalIdentity];
      && local.Identity?
      && local.operation in s.created && s.created[local.operation] == local.handle
      && !Marked(s.store, local.handle)
      && local.node in s.seen && local.node !in s.retired
  }

  /** The provider lost no key but marked ones, was asked to delete marked ones only, and gives
      distinct operations distinct handles. */
  ghost predicate ProviderOk(s: State)
  {
    && (forall o :: o in s.created ==> Marked(s.store, s.created[o]) || s.created[o] in s.held)
    && (forall h :: h in s.asked ==> Marked(s.store, h))
    && (forall o, q :: o in s.created && q in s.created && o != q ==> s.created[o] != s.created[q])
  }

  ghost predicate LeaveOk(s: State)
  {
    && s.retired <= s.seen
    && (s.retired != {} ==> LocalIdentity in s.store)
    && (forall leave :: leave in s.finished ==>
          leave.formerNode in s.retired && leave.replacementNode in s.seen && Tombstone(leave.formerHandle) in s.store)
    && (LeaveIntent in s.store ==>
          && s.store[LeaveIntent].Leaving?
          && var leave := s.store[LeaveIntent].leave;
             && leave !in s.finished
             && leave.replacementNode in s.seen && leave.replacementNode !in s.retired
             && LocalIdentity in s.store && s.store[LocalIdentity].Identity?
             && if s.store[LocalIdentity].node == leave.formerNode
                then s.store[LocalIdentity].handle == leave.formerHandle && leave.formerNode != leave.replacementNode
                else s.store[LocalIdentity].node == leave.replacementNode && leave.formerNode in s.retired)
  }

  ghost predicate PurposeOk(s: State, purpose: Purpose, handle: Handle)
  {
    purpose.ForLeave? ==>
      handle == purpose.leave.formerHandle && Moved(s, purpose.leave) && WipedFor(s, purpose.leave, FAMILIES)
  }

  ghost predicate ProcOk(cas: bool, s: State, p: Proc)
  {
    match p
    case FinalizeRead(_, operation, handle) => operation in s.created && s.created[operation] == handle
    case FinalizeCommit(_, operation, handle, _) => operation in s.created && s.created[operation] == handle
    case DeleteRead(handle, purpose) => PurposeOk(s, purpose, handle)
    case InstallCommit(handle, _, pinned, base, purpose) =>
      && PurposeOk(s, purpose, handle) && base <= s.revision
      && (pinned.Some? ==> pinned.value.Identity? && pinned.value.handle != handle)
      && (pinned.None? ==> cas && (base == s.revision ==> LocalIdentity !in s.store))
    case ProviderDelete(handle, _, _, purpose) => PurposeOk(s, purpose, handle) && Marked(s.store, handle)
    case BuryRead(handle, _, purpose) => PurposeOk(s, purpose, handle) && Marked(s.store, handle)
    case BuryCommit(handle, _, _, purpose) => PurposeOk(s, purpose, handle) && Marked(s.store, handle)
    case BuryAccept(handle, _, purpose) => PurposeOk(s, purpose, handle) && Marked(s.store, handle)
    case LeaveJudge(leave) => Known(s, leave)
    case LeaveKey(leave) => Known(s, leave)
    case SwapRead(leave, handle) =>
      Known(s, leave) && leave.replacementOperation in s.created && s.created[leave.replacementOperation] == handle
    case SwapCommit(leave, former, handle, _) =>
      && Known(s, leave) && leave.replacementOperation in s.created && s.created[leave.replacementOperation] == handle
      && former.Identity? && former.node == leave.formerNode
    case WipeRead(leave, family) => Moved(s, leave) && WipedFor(s, leave, family) && family < FAMILIES
    case WipeCommit(leave, family, batch, _) =>
      && Moved(s, leave) && WipedFor(s, leave, family) && family < FAMILIES
      && forall i :: 0 <= i < |batch| ==> batch[i].Delete? && batch[i].key.Domain?
    case CompleteRead(leave) =>
      Moved(s, leave) && WipedFor(s, leave, FAMILIES) && Tombstone(leave.formerHandle) in s.store
    case CompleteCommit(leave, _) =>
      Moved(s, leave) && WipedFor(s, leave, FAMILIES) && Tombstone(leave.formerHandle) in s.store
    case _ => true
  }

  /** The part of the invariant that does not speak of running instances. */
  ghost predicate Durable(cas: bool, s: State)
  {
    IdentityOk(s) && ProviderOk(s) && LeaveOk(s) && (cas || LocalIdentity in s.store)
  }

  ghost predicate Inv(cas: bool, s: State)
  {
    && Durable(cas, s)
    && forall pid :: pid in s.procs ==> ProcOk(cas, s, s.procs[pid])
  }

  // ---- What any step may change ----

  ghost predicate OnlyWiped(s: State, t: State)
  {
    forall key :: key in t.store && key.Domain? ==> key in s.store
  }

  ghost predicate Evolves(s: State, t: State)
  {
    && (t.revision == s.revision ==> t.store == s.store) && s.revision <= t.revision
    && s.created.Keys <= t.created.Keys && (forall o :: o in s.created ==> t.created[o] == s.created[o])
    && (forall h :: Marked(s.store, h) ==> Marked(t.store, h))
    && (forall h :: Tombstone(h) in s.store ==> Tombstone(h) in t.store)
    && (forall leave :: Known(s, leave) && Current(t, leave) ==> Current(s, leave) && OnlyWiped(s, t))
    && (LocalIdentity in s.store ==> LocalIdentity in t.store)
    && s.finished <= t.finished && s.retired <= t.retired && s.asked <= t.asked
    && (forall leave :: Current(s, leave) ==> Known(t, leave))
    && (forall leave :: Moved(s, leave) ==> Moved(t, leave))
  }

  lemma EvolvesTransitive(s: State, t: State, u: State)
    requires Evolves(s, t) && Evolves(t, u)
    ensures Evolves(s, u)
  {
    forall leave | Current(s, leave) ensures Known(u, leave) {
      assert Known(t, leave);
    }
    forall leave | Known(s, leave) && Current(u, leave) ensures Current(s, leave) && OnlyWiped(s, u) {
      assert Known(t, leave);
    }
  }

  /** What an instance relies on survives every step of the others. */
  lemma ProcOkStable(cas: bool, s: State, t: State, p: Proc)
    requires Evolves(s, t) && ProcOk(cas, s, p)
    ensures ProcOk(cas, t, p)
  {
  }

  // ---- The effect of each transaction ----

  lemma FinalizeEffect(store: Entries, node: Node, operation: OperationId, handle: Handle)
    requires Admits(store, FinalizeOps(node, operation, handle))
    ensures Apply(store, FinalizeOps(node, operation, handle)) ==
            (store - {CreationIntent(operation)})[LocalIdentity := Identity(node, operation, handle)]
    ensures LocalIdentity !in store && !Marked(store, handle)
  {
    var ops := FinalizeOps(node, operation, handle);
    assert ConditionMatches(store, ops[1]) && ConditionMatches(store, ops[2]) && ConditionMatches(store, ops[3]);
    ApplyOneOperation(store, ops[0]);
    ApplyLast(store, [ops[0]], ops[1]);
    ApplyLast(store, [ops[0], ops[1]], ops[2]);
    ApplyLast(store, [ops[0], ops[1], ops[2]], ops[3]);
    assert [ops[0]] + [ops[1]] == [ops[0], ops[1]];
    assert [ops[0], ops[1]] + [ops[2]] == [ops[0], ops[1], ops[2]];
    assert ops == [ops[0], ops[1], ops[2]] + [ops[3]];
  }

  lemma InstallEffect(store: Entries, handle: Handle, operation: OperationId, pinned: Option<Record>)
    requires Admits(store, InstallOps(handle, operation, pinned))
    ensures Apply(store, InstallOps(handle, operation, pinned)) ==
            store[DeletionIntent(handle) := Deletion(operation, handle)]
    ensures pinned.Some? ==> LocalIdentity in store && store[LocalIdentity] == pinned.value
  {
    var ops := InstallOps(handle, operation, pinned);
    assert ConditionMatches(store, ops[0]);
    ApplyOneOperation(store, ops[0]);
    if pinned.Some? {
      ApplyLast(store, [ops[0]], ops[1]);
      assert ops == [ops[0]] + [ops[1]];
    } else {
      assert ops == [ops[0]];
    }
  }

  lemma BuryEffect(store: Entries, handle: Handle, operation: OperationId)
    requires Admits(store, BuryOps(handle, operation))
    ensures Apply(store, BuryOps(handle, operation)) ==
            (store - {DeletionIntent(handle)})[Tombstone(handle) := Deleted(operation, handle)]
    ensures DeletionIntent(handle) in store
  {
    var ops := BuryOps(handle, operation);
    assert ConditionMatches(store, ops[0]);
    ApplyOneOperation(store, ops[0]);
    ApplyLast(store, [ops[0]], ops[1]);
    assert ops == [ops[0]] + [ops[1]];
  }

  lemma SwapEffect(store: Entries, leave: Leave, former: Record, handle: Handle)
    requires Admits(store, SwapOps(leave, former, handle))
    ensures Apply(store, SwapOps(leave, former, handle)) ==
            store[LocalIdentity := Identity(leave.replacementNode, leave.replacementOperation, handle)]
    ensures LocalIdentity in store && store[LocalIdentity] == former && !Marked(store, handle)
  {
    var ops := SwapOps(leave, former, handle);
    assert ConditionMatches(store, ops[0]) && ConditionMatches(store, ops[1]) && ConditionMatches(store, ops[2]);
    ApplyOneOperation(store, ops[0]);
    ApplyLast(store, [ops[0]], ops[1]);
    ApplyLast(store, [ops[0], ops[1]], ops[2]);
    assert [ops[0]] + [ops[1]] == [ops[0], ops[1]];
    assert ops == [ops[0], ops[1]] + [ops[2]];
  }

  lemma SingleEffect(store: Entries, operation: Operation<Key, Record>)
    requires Admits(store, [operation])
    ensures Apply(store, [operation]) == ApplyOne(store, operation)
    ensures ConditionMatches(store, operation)
  {
    ApplyOneOperation(store, operation);
    assert ConditionMatches(store, [operation][0]);
  }

  lemma {:induction false} WipeEffect(store: Entries, batch: Operations)
    requires forall i :: 0 <= i < |batch| ==> batch[i].Delete? && batch[i].key.Domain?
    ensures forall key :: key in Apply(store, batch) ==> key in store && Apply(store, batch)[key] == store[key]
    ensures forall key :: key in store && !key.Domain? ==> key in Apply(store, batch)
  {
    if batch != [] {
      WipeEffect(store, batch[..|batch| - 1]);
    }
  }

  // ---- Each applied transaction keeps the durable part ----

  lemma CreateApplied(cas: bool, s: State, p: Proc)
    requires Durable(cas, s) && p.CreateCommit? && MayApply(cas, s, p)
    ensures Durable(cas, Applied(s, p)) && Evolves(s, Applied(s, p))
  {
    SingleEffect(s.store, CreateOps(p.node, p.operation)[0]);
    var t := Applied(s, p);
    assert t.store == s.store[CreationIntent(p.operation) := Creation(p.operation, p.node)];
  }

  lemma FinalizeApplied(cas: bool, s: State, p: Proc)
    requires Durable(cas, s) && ProcOk(cas, s, p) && p.FinalizeCommit? && MayApply(cas, s, p)
    ensures Durable(cas, Applied(s, p)) && Evolves(s, Applied(s, p))
  {
    FinalizeEffect(s.store, p.node, p.operation, p.handle);
  }

  lemma InstallApplied(cas: bool, s: State, p: Proc)
    requires Durable(cas, s) && ProcOk(cas, s, p) && p.InstallCommit? && MayApply(cas, s, p)
    ensures Durable(cas, Applied(s, p)) && Evolves(s, Applied(s, p)) && Marked(Applied(s, p).store, p.handle)
  {
    InstallEffect(s.store, p.handle, p.operation, p.pinned);
    InstallFrame(s.store, p.handle, p.operation, p.pinned);
    var t := Applied(s, p);
    assert LocalIdentity in s.store ==> s.store[LocalIdentity].handle != p.handle;
    hide Apply, InstallOps, Admits, Applied, ProcOk, MayApply;
    MarkingKeeps(cas, s, t, p.handle);
  }

  /** What marking one handle changes: that mark, and nothing else of interest. */
  ghost predicate OnlyMarks(store: Entries, later: Entries, handle: Handle)
  {
    && Lookup(later, LocalIdentity) == Lookup(store, LocalIdentity)
    && Lookup(later, LeaveIntent) == Lookup(store, LeaveIntent)
    && (forall h :: Tombstone(h) in later <==> Tombstone(h) in store)
    && (forall h :: Marked(later, h) <==> Marked(store, h) || h == handle)
    && (forall key: Key :: key.Domain? && key in later ==> key in store)
  }

  lemma InstallFrame(store: Entries, handle: Handle, operation: OperationId, pinned: Option<Record>)
    requires Admits(store, InstallOps(handle, operation, pinned))
    ensures OnlyMarks(store, Apply(store, InstallOps(handle, operation, pinned)), handle)
  {
    InstallEffect(store, handle, operation, pinned);
    hide Apply, InstallOps, Admits, Marked;
    InstallMarks(store, handle, Deletion(operation, handle));
  }

  lemma MarkingKeeps(cas: bool, s: State, t: State, handle: Handle)
    requires Durable(cas, s) && OnlyMarks(s.store, t.store, handle)
    requires t == s.(store := t.store, revision := s.revision + 1)
    requires LocalIdentity in s.store ==> s.store[LocalIdentity].handle != handle
    ensures Durable(cas, t) && Evolves(s, t) && Marked(t.store, handle)
  {
    hide Marked;
  }

  lemma InstallMarks(store: Entries, handle: Handle, record: Record)
    ensures forall h :: Marked(store[DeletionIntent(handle) := record], h) <==> Marked(store, h) || h == handle
  {
    var later := store[DeletionIntent(handle) := record];
    forall h ensures Marked(later, h) <==> Marked(store, h) || h == handle {
      InstallMark(store, handle, record, h);
    }
  }

  lemma InstallMark(store: Entries, handle: Handle, record: Record, h: Handle)
    ensures Marked(store[DeletionIntent(handle) := record], h) <==> Marked(store, h) || h == handle
  {
    var later := store[DeletionIntent(handle) := record];
    assert later.Keys == store.Keys + {DeletionIntent(handle)};
    assert Tombstone(h) in later <==> Tombstone(h) in store;
    assert DeletionIntent(h) in later <==> DeletionIntent(h) in store || h == handle;
  }

  lemma BuryApplied(cas: bool, s: State, p: Proc)
    requires Durable(cas, s) && ProcOk(cas, s, p) && p.BuryCommit? && MayApply(cas, s, p)
    ensures Durable(cas, Applied(s, p)) && Evolves(s, Applied(s, p)) && Tombstone(p.handle) in Applied(s, p).store
  {
    BuryEffect(s.store, p.handle, p.operation);
  }

  lemma BeginApplied(cas: bool, s: State, p: Proc)
    requires Durable(cas, s) && p.BeginCommit? && MayApply(cas, s, p)
    ensures Durable(cas, Applied(s, p)) && Evolves(s, Applied(s, p)) && Current(Applied(s, p), p.leave)
  {
    SingleEffect(s.store, BeginOps(p.leave)[0]);
    var t := Applied(s, p);
    assert t.store == s.store[LeaveIntent := Leaving(p.leave)];
  }

  /** Only the pending leave can swap, and only away from its former identity. */
  lemma SwapApplied(cas: bool, s: State, p: Proc)
    requires Durable(cas, s) && ProcOk(cas, s, p) && p.SwapCommit? && MayApply(cas, s, p)
    ensures Durable(cas, Applied(s, p)) && Evolves(s, Applied(s, p)) && Moved(Applied(s, p), p.leave)
  {
    SwapEffect(s.store, p.leave, p.former, p.handle);
    assert Current(s, p.leave);
  }

  lemma WipeApplied(cas: bool, s: State, p: Proc)
    requires Durable(cas, s) && ProcOk(cas, s, p) && p.WipeCommit? && MayApply(cas, s, p)
    ensures Durable(cas, Applied(s, p)) && Evolves(s, Applied(s, p))
  {
    WipeEffect(s.store, p.batch);
  }

  /** When the intent goes, everything the leave promises is in place. */
  lemma CompleteApplied(cas: bool, s: State, p: Proc)
    requires Durable(cas, s) && ProcOk(cas, s, p) && p.CompleteCommit? && MayApply(cas, s, p)
    ensures Durable(cas, Applied(s, p)) && Evolves(s, Applied(s, p))
    ensures Current(s, p.leave) && LeaveDone(Applied(s, p), p.leave)
  {
    SingleEffect(s.store, CompleteOps(p.leave)[0]);
    var t := Applied(s, p);
    assert t.store == s.store - {LeaveIntent};
  }

  /** The outcome of a leave: the replacement identity, whose key the provider holds, no domain metadata
      of any family, the former handle buried. */
  ghost predicate LeaveDone(s: State, leave: Leave)
  {
    && LeaveIntent !in s.store
    && HasNode(s, leave.replacementNode) && s.store[LocalIdentity].handle in s.held
    && (forall key :: key in s.store ==> !key.Domain?)
    && Tombstone(leave.formerHandle) in s.store
  }

  // ---- Every step keeps the invariant ----

  lemma Settle(cas: bool, s: State, t: State, pid: Pid, c: Continuation)
    requires Inv(cas, s) && Durable(cas, t) && Evolves(s, t) && t.procs == s.procs
    requires c.Goes? ==> ProcOk(cas, t, c.proc)
    ensures Inv(cas, Continue(t, pid, c)) && Evolves(s, Continue(t, pid, c))
  {
    hide Durable, Evolves, ProcOk;
    var u := Continue(t, pid, c);
    assert Durable(cas, u) && Evolves(s, u) by { SameButProcs(cas, s, t, u); }
    forall q | q in u.procs ensures ProcOk(cas, u, u.procs[q]) {
      if q != pid {
        ProcOkStable(cas, s, u, s.procs[q]);
      } else {
        ProcOkSame(cas, t, u, c.proc);
      }
    }
  }

  lemma SameButProcs(cas: bool, s: State, t: State, u: State)
    requires Durable(cas, t) && Evolves(s, t) && u == t.(procs := u.procs)
    ensures Durable(cas, u) && Evolves(s, u)
  {
  }

  lemma ProcOkSame(cas: bool, t: State, u: State, p: Proc)
    requires ProcOk(cas, t, p) && u == t.(procs := u.procs)
    ensures ProcOk(cas, u, p)
  {
  }

  lemma EvolvesReflexive(s: State)
    ensures Evolves(s, s)
  {
  }

  lemma ReadKeeps(cas: bool, s: State, p: Proc, generated: OperationId)
    requires Durable(cas, s) && ProcOk(cas, s, p)
    requires AfterRead(s, p, generated).Some? && AfterRead(s, p, generated).value.Goes?
    ensures ProcOk(cas, s, AfterRead(s, p, generated).value.proc)
  {
  }

  lemma CommitKeeps(cas: bool, s: State, p: Proc)
    requires Durable(cas, s) && ProcOk(cas, s, p) && MayApply(cas, s, p)
    ensures Durable(cas, Applied(s, p)) && Evolves(s, Applied(s, p))
  {
    assert PreparedOf(p).Some?;
    hide Durable, Evolves, MayApply, ProcOk, Applied;
    match p
    case CreateCommit(_, _, _) => CreateApplied(cas, s, p);
    case FinalizeCommit(_, _, _, _) => FinalizeApplied(cas, s, p);
    case InstallCommit(_, _, _, _, _) => InstallApplied(cas, s, p);
    case BuryCommit(_, _, _, _) => BuryApplied(cas, s, p);
    case BeginCommit(_, _) => BeginApplied(cas, s, p);
    case SwapCommit(_, _, _, _) => SwapApplied(cas, s, p);
    case WipeCommit(_, _, _, _) => WipeApplied(cas, s, p);
    case CompleteCommit(_, _) => CompleteApplied(cas, s, p);
  }

  lemma CommittedProcOk(cas: bool, s: State, p: Proc)
    requires Durable(cas, s) && ProcOk(cas, s, p) && MayApply(cas, s, p) && AfterCommitted(p).Goes?
    ensures ProcOk(cas, Applied(s, p), AfterCommitted(p).proc)
  {
    hide Durable, Evolves, MayApply, Applied;
    var t := Applied(s, p);
    match p
    case InstallCommit(h, _, _, _, purpose) =>
      InstallApplied(cas, s, p);
      ProcOkStable(cas, s, t, DeleteRead(h, purpose));
    case BuryCommit(h, _, _, purpose) =>
      BuryApplied(cas, s, p);
      ProcOkStable(cas, s, t, DeleteRead(h, purpose));
    case BeginCommit(_, _) => BeginApplied(cas, s, p);
    case SwapCommit(_, _, _, _) => SwapApplied(cas, s, p);
    case WipeCommit(leave, family, _, _) =>
      WipeApplied(cas, s, p);
      ProcOkStable(cas, s, t, WipeRead(leave, family));
    case _ =>
  }

  lemma AbortKeeps(cas: bool, s: State, p: Proc)
    requires ProcOk(cas, s, p) && AfterAborted(p).Goes?
    ensures ProcOk(cas, s, AfterAborted(p).proc)
  {
  }

  lemma CreateKeyKeeps(cas: bool, s: State, operation: OperationId, handle: Handle)
    requires Durable(cas, s) && operation !in s.created && handle !in s.created.Values
    ensures var t := s.(created := s.created[operation := handle], held := s.held + {handle});
            Durable(cas, t) && Evolves(s, t)
  {
    var t := s.(created := s.created[operation := handle], held := s.held + {handle});
    assert forall o :: o in s.created ==> s.created[o] in s.created.Values;
    assert forall h :: Marked(s.store, h) == Marked(t.store, h);
  }

  lemma ProviderDeleteKeeps(cas: bool, s: State, handle: Handle, ask: bool, removed: bool)
    requires Durable(cas, s) && Marked(s.store, handle)
    ensures var t := s.(asked := if ask then s.asked + {handle} else s.asked,
                        held := if removed then s.held - {handle} else s.held);
            Durable(cas, t) && Evolves(s, t)
  {
  }

  lemma WriteKeeps(cas: bool, s: State, key: Key, content: Option<nat>)
    requires Inv(cas, s) && key.Domain? && LeaveIntent !in s.store
    ensures Inv(cas, Written(s, key, content)) && Evolves(s, Written(s, key, content))
  {
    var t := Written(s, key, content);
    assert forall h :: Marked(s.store, h) == Marked(t.store, h);
    assert Durable(cas, t) && Evolves(s, t);
    forall pid | pid in t.procs ensures ProcOk(cas, t, t.procs[pid]) {
      ProcOkStable(cas, s, t, s.procs[pid]);
    }
  }

  lemma StepKeeps(cas: bool, s: State, e: Event)
    requires Inv(cas, s) && Next(cas, s, e).Some?
    ensures Inv(cas, Next(cas, s, e).value) && Evolves(s, Next(cas, s, e).value)
  {
    hide Durable, Evolves, AfterRead, MayApply, Applied, AfterCommitted, AfterAborted, PreparedOf;
    EvolvesReflexive(s);
    if e.Write? {
      WriteKeeps(cas, s, e.key, e.content);
    } else if e.Start? {
      var t := s.(procs := s.procs[e.pid := e.proc]);
      Settle(cas, s, s, e.pid, Goes(e.proc));
    } else {
      var p := s.procs[e.pid];
      match e
      case Crash(pid) => Settle(cas, s, s, pid, Ended);
      case Read(pid, operation) =>
        var c := AfterRead(s, p, operation).value;
        if c.Goes? { ReadKeeps(cas, s, p, operation); }
        Settle(cas, s, s, pid, c);
      case Wipe(pid, batch) =>
        Settle(cas, s, s, pid, Goes(WipeCommit(p.leave, p.family, batch, s.revision)));
      case Create(pid, issued, present) => CreateStepKeeps(cas, s, e);
      case ProviderStep(pid, ask, removed, absent) =>
        ProviderDeleteKeeps(cas, s, p.handle, ask, removed);
        var t := s.(asked := if ask then s.asked + {p.handle} else s.asked,
                    held := if removed then s.held - {p.handle} else s.held);
        var c := if absent then Goes(BuryRead(p.handle, p.operation, p.purpose)) else Ended;
        if absent { ProcOkStable(cas, s, t, c.proc); }
        Settle(cas, s, t, pid, c);
      case Commit(pid, applied, report) => CommitStepKeeps(cas, s, e);
    }
  }

  lemma CreateStepKeeps(cas: bool, s: State, e: Event)
    requires Inv(cas, s) && Next(cas, s, e).Some? && e.Create?
    ensures Inv(cas, Next(cas, s, e).value) && Evolves(s, Next(cas, s, e).value)
  {
    hide Durable, Evolves;
    EvolvesReflexive(s);
    var p := s.procs[e.pid];
    var operation := if p.CreateKey? then p.operation else p.leave.replacementOperation;
    var handle := if operation in s.created then s.created[operation] else e.issued;
    var t := s;
    if operation !in s.created {
      CreateKeyKeeps(cas, s, operation, handle);
      t := s.(created := s.created[operation := handle], held := s.held + {handle});
    }
    ProcOkStable(cas, s, t, p);
    Settle(cas, s, t, e.pid,
           if !e.present then Ended
           else if p.CreateKey? then Goes(FinalizeRead(p.node, operation, handle))
           else Goes(SwapRead(p.leave, handle)));
  }

  lemma CommitStepKeeps(cas: bool, s: State, e: Event)
    requires Inv(cas, s) && Next(cas, s, e).Some? && e.Commit?
    ensures Inv(cas, Next(cas, s, e).value) && Evolves(s, Next(cas, s, e).value)
  {
    hide Durable, Evolves, MayApply, PreparedOf, AfterCommitted, AfterAborted, ProcOk;
    EvolvesReflexive(s);
    var p := s.procs[e.pid];
    var t := s;
    if e.applied {
      CommitKeeps(cas, s, p);
      if AfterCommitted(p).Goes? {
        CommittedProcOk(cas, s, p);
      }
      t := Applied(s, p);
    }
    var c := match e.report
      case Committed => AfterCommitted(p)
      case Aborted => AfterAborted(p)
      case Lost => Ended;
    if e.report.Aborted? && c.Goes? {
      AbortKeeps(cas, s, p);
      ProcOkStable(cas, s, t, c.proc);
    }
    Settle(cas, s, t, e.pid, c);
  }
}
