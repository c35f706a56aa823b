/**
 Key custody and active leave over the conditional store, as a state machine. A state holds the
 store, the key provider and any number of protocol instances; one event is one storage snapshot,
 one storage commit, one provider call, a start or a crash. Commits are adversarial: only a
 reported `Committed` tells that the transaction was applied.
 */
module Custody {
  import opened Wrappers
  import opened ConditionalStore

  type Node = nat
  type OperationId = nat
  type Handle = nat
  type Pid = nat

  /** The families of domain metadata: everything a leave wipes. */
  datatype Family =
    | IdentityBinding
    | ClusterGenesis
    | LocalClusterPointer
    | CredentialUse
    | AdmissionGrant
    | TrustSnapshot
    | TrustBinding
    | Revocation
    | NodeDescriptor
    | ResourceRecord
    | Trace

  /** The order in which a leave wipes them. */
  const WIPE_ORDER: seq<Family> := [
    IdentityBinding, ClusterGenesis, LocalClusterPointer, CredentialUse, AdmissionGrant, TrustSnapshot,
    TrustBinding, Revocation, NodeDescriptor, ResourceRecord, Trace
  ]

  /** How many the wipe goes through. */
  const FAMILIES: nat := 11

  /** Where a family stands in that order; none is missing from it. */
  function Position(family: Family): (i: nat)
    ensures i < FAMILIES == |WIPE_ORDER| && WIPE_ORDER[i] == family
  {
    match family
    case IdentityBinding => 0
    case ClusterGenesis => 1
    case LocalClusterPointer => 2
    case CredentialUse => 3
    case AdmissionGrant => 4
    case TrustSnapshot => 5
    case TrustBinding => 6
    case Revocation => 7
    case NodeDescriptor => 8
    case ResourceRecord => 9
    case Trace => 10
  }

  /** The most deletes in one wipe transaction. */
  const WIPE_BATCH: nat := 64

  datatype Key =
    | LocalIdentity
    | CreationIntent(operation: OperationId)
    | DeletionIntent(handle: Handle)
    | Tombstone(handle: Handle)
    | LeaveIntent
    | Domain(family: Family, id: nat)

  /** The exact former identity and the coordinates of the replacement. */
  datatype Leave = Leave(
    formerNode: Node, formerHandle: Handle, replacementNode: Node, replacementOperation: OperationId)

  datatype Record =
    | Identity(node: Node, operation: OperationId, handle: Handle)
    | Creation(operation: OperationId, node: Node)
    | Deletion(operation: OperationId, handle: Handle)
    | Deleted(operation: OperationId, handle: Handle)
    | Leaving(leave: Leave)
    | Opaque(content: nat)

  type Entries = map<Key, Record>
  type Operations = seq<Operation<Key, Record>>

  /** What a key deletion was called for. */
  datatype Purpose = Standalone | ForLeave(leave: Leave)

  /** Where one protocol instance stands. `base` is the revision of the snapshot behind a prepared
      transaction. */
  datatype Proc =
    | CreateCommit(node: Node, operation: OperationId, base: nat)
    | CreateKey(node: Node, operation: OperationId)
    | FinalizeRead(node: Node, operation: OperationId, handle: Handle)
    | FinalizeCommit(node: Node, operation: OperationId, handle: Handle, base: nat)
    | DeleteRead(handle: Handle, purpose: Purpose)
    | InstallCommit(handle: Handle, operation: OperationId, pinned: Option<Record>, base: nat, purpose: Purpose)
    | ProviderDelete(handle: Handle, operation: OperationId, resumed: bool, purpose: Purpose)
    | BuryRead(handle: Handle, operation: OperationId, purpose: Purpose)
    | BuryCommit(handle: Handle, operation: OperationId, base: nat, purpose: Purpose)
    | BuryAccept(handle: Handle, operation: OperationId, purpose: Purpose)
    | BeginCommit(leave: Leave, base: nat)
    | LeaveRead
    | LeaveJudge(leave: Leave)
    | LeaveKey(leave: Leave)
    | SwapRead(leave: Leave, handle: Handle)
    | SwapCommit(leave: Leave, former: Record, handle: Handle, base: nat)
    | WipeRead(leave: Leave, family: nat)
    | WipeCommit(leave: Leave, family: nat, batch: seq<Operation<Key, Record>>, base: nat)
    | CompleteRead(leave: Leave)
    | CompleteCommit(leave: Leave, base: nat)

  /** `created` and `held` are the provider; the last four components are history. */
  datatype State = State(
    store: Entries,
    revision: nat,
    procs: map<Pid, Proc>,
    created: map<OperationId, Handle>,
    held: set<Handle>,
    asked: set<Handle>,
    finished: set<Leave>,
    retired: set<Node>,
    seen: set<Node>)

  /** How a commit comes back, after reconciliation; `Lost` covers an error, a hang or a crash. */
  datatype Report = Committed | Aborted | Lost

  datatype Event =
    | Start(pid: Pid, proc: Proc)
    | Crash(pid: Pid)
    | Read(pid: Pid, operation: OperationId)
    | Wipe(pid: Pid, batch: seq<Operation<Key, Record>>)
    | Create(pid: Pid, issued: Handle, present: bool)
    | ProviderStep(pid: Pid, ask: bool, removed: bool, absent: bool)
    | Commit(pid: Pid, applied: bool, report: Report)
    | Write(key: Key, content: Option<nat>)

  predicate Marked(store: Entries, handle: Handle)
  {
    DeletionIntent(handle) in store || Tombstone(handle) in store
  }

  function LocalRecord(s: State): Option<Record> { Lookup(s.store, LocalIdentity) }

  // ---- The transactions ----

  function CreateOps(node: Node, operation: OperationId): Operations
  {
    [Put(CreationIntent(operation), Absent, Creation(operation, node))]
  }

  function FinalizeOps(node: Node, operation: OperationId, handle: Handle): Operations
  {
    [ Delete(CreationIntent(operation), Creation(operation, node)),
      Put(LocalIdentity, Absent, Identity(node, operation, handle)),
      Check(DeletionIntent(handle), Absent),
      Check(Tombstone(handle), Absent) ]
  }

  /** The install pins the identity record the snapshot proved unreferenced, if there was one. */
  function InstallOps(handle: Handle, operation: OperationId, pinned: Option<Record>): Operations
  {
    (if pinned.Some? then [Check(LocalIdentity, Exact(pinned.value))] else []) +
    [Put(DeletionIntent(handle), Absent, Deletion(operation, handle))]
  }

  function BuryOps(handle: Handle, operation: OperationId): Operations
  {
    [ Delete(DeletionIntent(handle), Deletion(operation, handle)),
      Put(Tombstone(handle), Absent, Deleted(operation, handle)) ]
  }

  function BeginOps(leave: Leave): Operations
  {
    [Put(LeaveIntent, Absent, Leaving(leave))]
  }

  function SwapOps(leave: Leave, former: Record, handle: Handle): Operations
  {
    [ Put(LocalIdentity, Exact(former), Identity(leave.replacementNode, leave.replacementOperation, handle)),
      Check(DeletionIntent(handle), Absent),
      Check(Tombstone(handle), Absent) ]
  }

  function CompleteOps(leave: Leave): Operations
  {
    [Delete(LeaveIntent, Leaving(leave))]
  }

  ghost predicate Wiped(batch: Operations, key: Key)
  {
    exists i :: 0 <= i < |batch| && batch[i].key == key
  }

  /** One wipe batch: exact deletes of distinct entries of the family, as many as the batch bound
      allows. */
  ghost predicate WipeBatch(store: Entries, family: nat, batch: Operations)
  {
    && 0 < |batch| <= WIPE_BATCH
    && (forall i :: 0 <= i < |batch| ==>
          && batch[i].Delete? && batch[i].key.Domain? && Position(batch[i].key.family) == family
          && ConditionMatches(store, batch[i]))
    && (forall i, j :: 0 <= i < j < |batch| ==> batch[i].key != batch[j].key)
    && (|batch| < WIPE_BATCH ==>
          forall key :: key in store && key.Domain? && Position(key.family) == family ==> Wiped(batch, key))
  }

  datatype Prepared = Prepared(operations: Operations, base: nat)

  function PreparedOf(p: Proc): Option<Prepared>
  {
    match p
    case CreateCommit(node, operation, base) => Some(Prepared(CreateOps(node, operation), base))
    case FinalizeCommit(node, operation, handle, base) => Some(Prepared(FinalizeOps(node, operation, handle), base))
    case InstallCommit(handle, operation, pinned, base, _) =>
      Some(Prepared(InstallOps(handle, operation, pinned), base))
    case BuryCommit(handle, operation, base, _) => Some(Prepared(BuryOps(handle, operation), base))
    case BeginCommit(leave, base) => Some(Prepared(BeginOps(leave), base))
    case SwapCommit(leave, former, handle, base) => Some(Prepared(SwapOps(leave, former, handle), base))
    case WipeCommit(_, _, batch, base) => Some(Prepared(batch, base))
    case CompleteCommit(leave, base) => Some(Prepared(CompleteOps(leave), base))
    case _ => None
  }

  /** Every prepared transaction names each key once, so it can be built. */
  lemma PreparedDistinct(p: Proc, store: Entries)
    requires PreparedOf(p).Some? && (p.WipeCommit? ==> WipeBatch(store, p.family, p.batch))
    ensures PreparedOf(p).value.operations != [] && DistinctKeys(PreparedOf(p).value.operations)
  {
  }

  // ---- What each instance does next ----

  datatype Continuation = Ended | Goes(proc: Proc)

  function AfterDelete(purpose: Purpose): Continuation
  {
    match purpose
    case Standalone => Ended
    case ForLeave(leave) => Goes(CompleteRead(leave))
  }

  function AfterCommitted(p: Proc): Continuation
  {
    match p
    case CreateCommit(node, operation, _) => Goes(CreateKey(node, operation))
    case InstallCommit(handle, operation, _, _, purpose) => Goes(ProviderDelete(handle, operation, false, purpose))
    case BuryCommit(_, _, _, purpose) => AfterDelete(purpose)
    case BeginCommit(leave, _) => Goes(LeaveJudge(leave))
    case SwapCommit(leave, _, _, _) => Goes(WipeRead(leave, 0))
    case WipeCommit(leave, family, _, _) => Goes(WipeRead(leave, family))
    case _ => Ended
  }

  /** The deletion retries on a conflict, the wipe rescans; every other abort is an error. */
  function AfterAborted(p: Proc): Continuation
  {
    match p
    case InstallCommit(handle, _, _, _, purpose) => Goes(DeleteRead(handle, purpose))
    case BuryCommit(handle, operation, _, purpose) => Goes(BuryAccept(handle, operation, purpose))
    case WipeCommit(leave, family, _, _) => Goes(WipeRead(leave, family))
    case _ => Ended
  }

  /** One storage snapshot and the decision made from it; `generated` is a fresh operation id. */
  function AfterRead(s: State, p: Proc, generated: OperationId): Option<Continuation>
  {
    match p
    case FinalizeRead(node, operation, handle) =>
      Some(if Marked(s.store, handle) then Ended else Goes(FinalizeCommit(node, operation, handle, s.revision)))
    case DeleteRead(handle, purpose) =>
      Some(
        if Tombstone(handle) in s.store then AfterDelete(purpose)
        else if LocalIdentity in s.store && !s.store[LocalIdentity].Identity? then Ended
        else if LocalIdentity in s.store && s.store[LocalIdentity].handle == handle then Ended
        else if DeletionIntent(handle) in s.store then
          var intent := s.store[DeletionIntent(handle)];
          if intent.Deletion? && intent.handle == handle
          then Goes(ProviderDelete(handle, intent.operation, true, purpose)) else Ended
        else Goes(InstallCommit(handle, generated, LocalRecord(s), s.revision, purpose)))
    case BuryRead(handle, operation, purpose) =>
      Some(
        if Lookup(s.store, DeletionIntent(handle)) == Some(Deletion(operation, handle))
        then Goes(BuryCommit(handle, operation, s.revision, purpose)) else Ended)
    case BuryAccept(handle, operation, purpose) =>
      Some(
        if Tombstone(handle) in s.store && DeletionIntent(handle) !in s.store then
          if s.store[Tombstone(handle)] == Deleted(operation, handle) then AfterDelete(purpose) else Ended
        else Goes(DeleteRead(handle, purpose)))
    case LeaveRead =>
      Some(
        if LeaveIntent in s.store && s.store[LeaveIntent].Leaving? then Goes(LeaveJudge(s.store[LeaveIntent].leave))
        else Ended)
    case LeaveJudge(leave) =>
      Some(
        if LocalIdentity !in s.store || !s.store[LocalIdentity].Identity? then Ended
        else if s.store[LocalIdentity].node == leave.formerNode then Goes(LeaveKey(leave))
        else if s.store[LocalIdentity].node == leave.replacementNode then Goes(WipeRead(leave, 0))
        else Ended)
    case SwapRead(leave, handle) =>
      Some(
        if LocalIdentity !in s.store || !s.store[LocalIdentity].Identity? then Ended
        else if s.store[LocalIdentity].node != leave.formerNode || Marked(s.store, handle) then Ended
        else Goes(SwapCommit(leave, s.store[LocalIdentity], handle, s.revision)))
    case WipeRead(leave, family) =>
      if family < FAMILIES && !FamilyEmpty(s.store, family) then None
      else Some(
        if family + 1 < FAMILIES then Goes(WipeRead(leave, family + 1))
        else Goes(DeleteRead(leave.formerHandle, ForLeave(leave))))
    case CompleteRead(leave) => Some(Goes(CompleteCommit(leave, s.revision)))
    case _ => None
  }

  predicate FamilyEmpty(store: Entries, family: nat)
  {
    forall key :: key in store && key.Domain? ==> Position(key.family) != family
  }

  function Continue(s: State, pid: Pid, c: Continuation): State
  {
    s.(procs := if c.Ended? then s.procs - {pid} else s.procs[pid := c.proc])
  }

  /** An instance starts from what is durable, or from a new request. */
  predicate Startable(s: State, p: Proc)
  {
    match p
    case CreateCommit(_, _, base) => base == s.revision && LocalIdentity !in s.store
    case CreateKey(node, operation) => Lookup(s.store, CreationIntent(operation)) == Some(Creation(operation, node))
    case DeleteRead(_, purpose) => purpose.Standalone?
    case BeginCommit(_, base) => base == s.revision
    case LeaveRead => true
    case _ => false
  }

  /** A leave is begun on a context that agrees with the store, with generated ids never used before. */
  predicate AgreesToBegin(s: State, leave: Leave)
  {
    && leave.replacementNode !in s.seen && leave.replacementOperation !in s.created
    && LocalIdentity in s.store && s.store[LocalIdentity].Identity?
    && s.store[LocalIdentity].node == leave.formerNode && s.store[LocalIdentity].handle == leave.formerHandle
  }

  /** When a prepared transaction may take effect. `cas` says whether the store also refuses a
      transaction prepared on an older revision. */
  predicate MayApply(cas: bool, s: State, p: Proc)
  {
    && PreparedOf(p).Some?
    && Admits(s.store, PreparedOf(p).value.operations)
    && (cas ==> PreparedOf(p).value.base == s.revision)
    && (p.BeginCommit? ==> AgreesToBegin(s, p.leave))
  }

  function Applied(s: State, p: Proc): State
    requires PreparedOf(p).Some?
  {
    var t := s.(store := Apply(s.store, PreparedOf(p).value.operations), revision := s.revision + 1);
    match p
    case FinalizeCommit(node, _, _, _) => t.(seen := s.seen + {node})
    case BeginCommit(leave, _) => t.(seen := s.seen + {leave.replacementNode})
    case SwapCommit(leave, _, _, _) => t.(retired := s.retired + {leave.formerNode})
    case CompleteCommit(leave, _) => t.(finished := s.finished + {leave})
    case _ => t
  }

  /** A domain write of the running node; while a leave is pending there is none. */
  function Written(s: State, key: Key, content: Option<nat>): State
  {
    s.(store := if content.Some? then s.store[key := Opaque(content.value)] else s.store - {key},
       revision := s.revision + 1)
  }

  ghost function Next(cas: bool, s: State, e: Event): (t: Option<State>)
  {
    if e.Write? then
      if e.key.Domain? && LeaveIntent !in s.store then Some(Written(s, e.key, e.content)) else None
    else if e.Start? then
      if e.pid !in s.procs && Startable(s, e.proc) then Some(s.(procs := s.procs[e.pid := e.proc])) else None
    else if e.pid !in s.procs then None
    else
      var p := s.procs[e.pid];
      match e
      case Crash(pid) => Some(s.(procs := s.procs - {pid}))
      case Read(pid, operation) =>
        var c := AfterRead(s, p, operation);
        if c.None? then None else Some(Continue(s, pid, c.value))
      case Wipe(pid, batch) =>
        if p.WipeRead? && WipeBatch(s.store, p.family, batch)
        then Some(Continue(s, pid, Goes(WipeCommit(p.leave, p.family, batch, s.revision)))) else None
      case Create(pid, issued, present) =>
        if !p.CreateKey? && !p.LeaveKey? then None
        else
          var operation := if p.CreateKey? then p.operation else p.leave.replacementOperation;
          if operation !in s.created && issued in s.created.Values then None
          else
            var handle := if operation in s.created then s.created[operation] else issued;
            var t := if operation in s.created then s
                     else s.(created := s.created[operation := handle], held := s.held + {handle});
            Some(Continue(t, pid,
              if !present then Ended
              else if p.CreateKey? then Goes(FinalizeRead(p.node, operation, handle))
              else Goes(SwapRead(p.leave, handle))))
      case ProviderStep(pid, ask, removed, absent) =>
        if !p.ProviderDelete? || (removed && !ask) || (!ask && !p.resumed) then None
        else
          var t := s.(asked := if ask then s.asked + {p.handle} else s.asked,
                      held := if removed then s.held - {p.handle} else s.held);
          if absent && p.handle in t.held then None
          else Some(Continue(t, pid, if absent then Goes(BuryRead(p.handle, p.operation, p.purpose)) else Ended))
      case Commit(pid, applied, report) => Committing(cas, s, pid, applied, report)
  }

  /** One commit of a running instance: whether it is applied is the store's affair, what is reported of it
      decides how the instance goes on. */
  ghost function Committing(cas: bool, s: State, pid: Pid, applied: bool, report: Report): Option<State>
    requires pid in s.procs
  {
    var p := s.procs[pid];
    if PreparedOf(p).None? || (applied && !MayApply(cas, s, p)) || (report.Committed? && !applied) then None
    else
      var t := if applied then Applied(s, p) else s;
      Some(Continue(t, pid,
        match report
        case Committed => AfterCommitted(p)
        case Aborted => AfterAborted(p)
        case Lost => Ended))
  }
}
