/**
 What each applied custody transaction does to the store, and two more facts that every step keeps:
 deletion intents are well formed, and a pending leave's replacement key is never its former key.
 */
module CustodyEffects {
  import opened Wrappers
  import opened ConditionalStore
  import opened Custody
  import opened CustodySafety

  // ---- Two more facts every step keeps ----

  /** Deletion intents are what installs wrote. */
  ghost predicate IntentOk(store: Entries, h: Handle)
  {
    DeletionIntent(h) in store ==> store[DeletionIntent(h)].Deletion? && store[DeletionIntent(h)].handle == h
  }

  ghost predicate IntentsOk(s: State)
  {
    forall h :: IntentOk(s.store, h)
  }

  /** The replacement key of a pending leave is never the former key. */
  ghost predicate ReplacementOk(s: State)
  {
    forall leave :: Current(s, leave) ==>
      && leave.formerHandle in s.created.Values
      && (leave.replacementOperation in s.created ==> s.created[leave.replacementOperation] != leave.formerHandle)
      && (HasNode(s, leave.replacementNode) ==> s.store[LocalIdentity].operation == leave.replacementOperation)
  }

  ghost predicate Sound(cas: bool, s: State)
  {
    Inv(cas, s) && IntentsOk(s) && ReplacementOk(s)
  }

  /** What an applied transaction does to the store, key by key, outside the family it wipes. */
  lemma CommitEffect(cas: bool, s: State, p: Proc, key: Key)
    requires ProcOk(cas, s, p) && MayApply(cas, s, p) && !key.Domain?
    ensures var after := Applied(s, p).store;
            Lookup(after, key) ==
            match p
            case CreateCommit(node, o, _) =>
              if key == CreationIntent(o) then Some(Creation(o, node)) else Lookup(s.store, key)
            case FinalizeCommit(node, o, h, _) =>
              if key == LocalIdentity then Some(Identity(node, o, h))
              else if key == CreationIntent(o) then None else Lookup(s.store, key)
            case InstallCommit(h, o, _, _, _) =>
              if key == DeletionIntent(h) then Some(Deletion(o, h)) else Lookup(s.store, key)
            case BuryCommit(h, o, _, _) =>
              if key == Tombstone(h) then Some(Deleted(o, h))
              else if key == DeletionIntent(h) then None else Lookup(s.store, key)
            case BeginCommit(leave, _) => if key == LeaveIntent then Some(Leaving(leave)) else Lookup(s.store, key)
            case SwapCommit(leave, _, h, _) =>
              if key == LocalIdentity then Some(Identity(leave.replacementNode, leave.replacementOperation, h))
              else Lookup(s.store, key)
            case CompleteCommit(_, _) => if key == LeaveIntent then None else Lookup(s.store, key)
            case _ => Lookup(s.store, key)
  {
    hide Apply, FinalizeOps, InstallOps, BuryOps, SwapOps;
    match p
    case CreateCommit(node, operation, _) => SingleEffect(s.store, CreateOps(node, operation)[0]);
    case FinalizeCommit(node, operation, handle, _) => FinalizeEffect(s.store, node, operation, handle);
    case InstallCommit(handle, operation, pinned, _, _) => InstallEffect(s.store, handle, operation, pinned);
    case BuryCommit(handle, operation, _, _) => BuryEffect(s.store, handle, operation);
    case BeginCommit(leave, _) => SingleEffect(s.store, BeginOps(leave)[0]);
    case SwapCommit(leave, former, handle, _) => SwapEffect(s.store, leave, former, handle);
    case WipeCommit(_, _, batch, _) => WipeEffect(s.store, batch);
    case CompleteCommit(leave, _) => SingleEffect(s.store, CompleteOps(leave)[0]);
  }

  lemma CommitKeepsIntents(cas: bool, s: State, p: Proc)
    requires ProcOk(cas, s, p) && MayApply(cas, s, p) && IntentsOk(s)
    ensures IntentsOk(Applied(s, p))
  {
    forall h ensures IntentOk(Applied(s, p).store, h) {
      assert IntentOk(s.store, h);
      hide ProcOk, MayApply, Applied, IntentsOk, PreparedOf;
      CommitEffect(cas, s, p, DeletionIntent(h));
    }
  }

  lemma CommitKeepsReplacement(cas: bool, s: State, p: Proc)
    requires Durable(cas, s) && ProcOk(cas, s, p) && MayApply(cas, s, p) && ReplacementOk(s)
    ensures ReplacementOk(Applied(s, p))
  {
    assert Applied(s, p).created == s.created;
    assert p.FinalizeCommit? ==> LocalIdentity !in s.store by {
      if p.FinalizeCommit? {
        FinalizeEffect(s.store, p.node, p.operation, p.handle);
      }
    }
    assert p.SwapCommit? ==> Lookup(s.store, LocalIdentity) == Some(p.former) by {
      if p.SwapCommit? {
        SwapEffect(s.store, p.leave, p.former, p.handle);
      }
    }
    CommitEffect(cas, s, p, LeaveIntent);
    CommitEffect(cas, s, p, LocalIdentity);
    hide Applied, Admits, ProviderOk, WipedBelow, Marked, PreparedOf;
  }

  lemma SoundStep(cas: bool, s: State, e: Event)
    requires Sound(cas, s) && Next(cas, s, e).Some?
    ensures Sound(cas, Next(cas, s, e).value)
  {
    StepKeeps(cas, s, e);
    var t := Next(cas, s, e).value;
    if e.Commit? && e.applied {
      var p := s.procs[e.pid];
      assert ProcOk(cas, s, p);
      CommitKeepsIntents(cas, s, p);
      CommitKeepsReplacement(cas, s, p);
      assert t.store == Applied(s, p).store && t.created == Applied(s, p).created;
    } else if e.Write? {
      assert forall h :: IntentOk(s.store, h) == IntentOk(t.store, h);
    } else {
      assert t.store == s.store;
    }
    hide Next, Inv;
  }
}
