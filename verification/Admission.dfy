/**
 Admission commits on the issuing node: one transaction stores the subject binding, the credential
 use and the signed grant. Any number of attempts run at once, commits are adversarial, and other
 writers may add bindings or adopt a grant of another issuer; nothing deletes these records outside a leave.
 */
module Admission {
  import opened Wrappers
  import opened ConditionalStore

  type Node = nat
  type PublicKey = nat
  type Cluster = nat
  type Generation = nat
  type AdmissionId = nat
  type Signature = nat
  type Pid = nat

  datatype Grant = Grant(
    cluster: Cluster, admission: AdmissionId, subject: Node, subjectKey: PublicKey,
    issuer: Node, generation: Generation, signature: Signature)

  datatype Key =
    | LocalIdentity
    | ClusterPointer
    | Binding(node: Node)
    | CredentialUse(issuer: Node, generation: Generation)
    | AdmissionGrant(admission: AdmissionId)

  datatype Record =
    | Identity(node: Node, key: PublicKey)
    | Pointer(cluster: Cluster)
    | Bound(node: Node, key: PublicKey)
    | Used(
        cluster: Cluster, issuer: Node, generation: Generation, admission: AdmissionId,
        subject: Node, subjectKey: PublicKey)
    | Granted(grant: Grant)

  type Entries = map<Key, Record>
  type Operations = seq<Operation<Key, Record>>

  datatype Proposal = Proposal(subject: Node, subjectKey: PublicKey, generation: Generation, admission: AdmissionId)

  /** The issuer's in-memory identity and the signature check of the program's crypto layer. */
  datatype Context = Context(node: Node, key: PublicKey, verifies: (PublicKey, Grant) -> bool)

  /** A grant for exactly this proposal, issued and signed by this context. */
  predicate Answers(c: Context, p: Proposal, g: Grant)
  {
    && g.admission == p.admission && g.subject == p.subject && g.subjectKey == p.subjectKey
    && g.generation == p.generation && g.issuer == c.node && c.verifies(c.key, g)
  }

  function UseOf(g: Grant): Record
  {
    Used(g.cluster, g.issuer, g.generation, g.admission, g.subject, g.subjectKey)
  }

  datatype Classification = Consumed(grant: Grant) | Nothing | Conflict | Corrupt

  /** `admission_state`: the triple is complete and exact, entirely absent, or an error. */
  function Classify(c: Context, store: Entries, p: Proposal): Classification
  {
    var pointer := Lookup(store, ClusterPointer);
    var cluster := if pointer.Some? && pointer.value.Pointer? then Some(pointer.value.cluster) else None;
    var used := Lookup(store, CredentialUse(c.node, p.generation));
    var granted := Lookup(store, AdmissionGrant(p.admission));
    var bound := Lookup(store, Binding(p.subject));
    if ClusterPointer in store && !store[ClusterPointer].Pointer? then Corrupt
    else if used.Some? && !used.value.Used? then Corrupt
    else if used.Some? && (cluster.None? ||
                           used.value != Used(cluster.value, c.node, p.generation, p.admission,
                                              p.subject, p.subjectKey)) then Conflict
    else if granted.Some? && !granted.value.Granted? then Corrupt
    else if granted.Some? && (cluster.None? || granted.value.grant.cluster != cluster.value ||
                              !Answers(c, p, granted.value.grant)) then Conflict
    else if bound.Some? && !bound.value.Bound? then Corrupt
    else if bound.Some? && bound.value != Bound(p.subject, p.subjectKey) then Conflict
    else if used.Some? && granted.Some? && bound.Some? then Consumed(granted.value.grant)
    else if used.None? && granted.None? && bound.None? then Nothing
    else Corrupt
  }

  datatype Attempt =
    | Reading(proposal: Proposal)
    | Committing(proposal: Proposal, grant: Grant, local: Record, pointer: Record, issuer: Record)
    | Classifying(proposal: Proposal)

  function CommitOps(c: Context, a: Attempt): Operations
    requires a.Committing?
  {
    [ Check(LocalIdentity, Exact(a.local)),
      Check(ClusterPointer, Exact(a.pointer)),
      Check(Binding(c.node), Exact(a.issuer)),
      Put(Binding(a.proposal.subject), Absent, Bound(a.proposal.subject, a.proposal.subjectKey)),
      Put(CredentialUse(c.node, a.proposal.generation), Absent, UseOf(a.grant)),
      Put(AdmissionGrant(a.proposal.admission), Absent, Granted(a.grant)) ]
  }

  /** A grant that another node issued to this one. */
  predicate Adoptable(c: Context, g: Grant, issuerKey: PublicKey)
  {
    g.subject == c.node && g.subjectKey == c.key && g.issuer != c.node && c.verifies(issuerKey, g)
  }

  function AdoptOps(c: Context, g: Grant, issuerKey: PublicKey): Operations
  {
    [ Check(LocalIdentity, Exact(Identity(c.node, c.key))),
      Put(Binding(g.issuer), Absent, Bound(g.issuer, issuerKey)),
      Put(AdmissionGrant(g.admission), Absent, Granted(g)),
      Put(ClusterPointer, Absent, Pointer(g.cluster)) ]
  }

  /** `returned` is history: every grant handed back to a caller, with the proposal it answered. */
  datatype State = State(store: Entries, attempts: map<Pid, Attempt>, returned: set<(Proposal, Grant)>)

  datatype Report = Committed | Aborted | Lost

  datatype Event =
    | Start(pid: Pid, proposal: Proposal, recovered: bool)
    | Crash(pid: Pid)
    | Read(pid: Pid, signature: Signature)
    | Commit(pid: Pid, applied: bool, report: Report)
    | AdoptBinding(node: Node, key: PublicKey)
    | AdoptGrant(grant: Grant, issuerKey: PublicKey)

  datatype Continuation = Ended | Goes(attempt: Attempt) | Returns(grant: Grant)

  /** The snapshot behind an attempt: either some record of the triple exists and is classified, or a
      grant is signed, checked and prepared. */
  function AfterRead(c: Context, store: Entries, a: Attempt, signature: Signature): Continuation
    requires !a.Committing?
  {
    var p := a.proposal;
    if a.Classifying? then
      var state := Classify(c, store, p);
      if state.Consumed? then Returns(state.grant) else Ended
    else if Lookup(store, LocalIdentity) != Some(Identity(c.node, c.key)) then Ended
    else if ClusterPointer !in store || !store[ClusterPointer].Pointer? then Ended
    else if Lookup(store, Binding(c.node)) != Some(Bound(c.node, c.key)) then Ended
    else if Binding(p.subject) in store || CredentialUse(c.node, p.generation) in store ||
            AdmissionGrant(p.admission) in store
    then Goes(Classifying(p))
    else
      var cluster := store[ClusterPointer].cluster;
      var grant := Grant(cluster, p.admission, p.subject, p.subjectKey, c.node, p.generation, signature);
      if !c.verifies(c.key, grant) then Ended
      else Goes(Committing(p, grant, store[LocalIdentity], store[ClusterPointer], store[Binding(c.node)]))
  }

  function Continue(s: State, pid: Pid, p: Proposal, k: Continuation): State
  {
    match k
    case Ended => s.(attempts := s.attempts - {pid})
    case Goes(a) => s.(attempts := s.attempts[pid := a])
    case Returns(g) => s.(attempts := s.attempts - {pid}, returned := s.returned + {(p, g)})
  }

  function Next(c: Context, s: State, e: Event): Option<State>
  {
    match e
    case Start(pid, proposal, recovered) =>
      if pid in s.attempts then None
      else Some(s.(attempts := s.attempts[pid := if recovered then Classifying(proposal) else Reading(proposal)]))
    case Crash(pid) => Some(s.(attempts := s.attempts - {pid}))
    case Read(pid, signature) =>
      if pid !in s.attempts || s.attempts[pid].Committing? then None
      else Some(Continue(s, pid, s.attempts[pid].proposal, AfterRead(c, s.store, s.attempts[pid], signature)))
    case Commit(pid, applied, report) =>
      if pid !in s.attempts || !s.attempts[pid].Committing? then None
      else
        var a := s.attempts[pid];
        if (applied && !Admits(s.store, CommitOps(c, a))) || (report.Committed? && !applied) then None
        else
          var t := if applied then s.(store := Apply(s.store, CommitOps(c, a))) else s;
          Some(Continue(t, pid, a.proposal,
            match report
            case Committed => Returns(a.grant)
            case Aborted => Goes(Classifying(a.proposal))
            case Lost => Ended))
    case AdoptBinding(node, key) =>
      if Binding(node) in s.store then None else Some(s.(store := s.store[Binding(node) := Bound(node, key)]))
    case AdoptGrant(grant, issuerKey) =>
      if Adoptable(c, grant, issuerKey) && Admits(s.store, AdoptOps(c, grant, issuerKey))
      then Some(s.(store := Apply(s.store, AdoptOps(c, grant, issuerKey)))) else None
  }

  function Run(c: Context, s: State, events: seq<Event>): Option<State>
    decreases |events|
  {
    if events == [] then Some(s) else
    var before := Run(c, s, events[..|events| - 1]);
    if before.None? then None else Next(c, before.value, events[|events| - 1])
  }

  // ---- The invariant ----

  /** The three records of one admission, complete and consistent. */
  predicate Triple(store: Entries, g: Grant)
  {
    && Lookup(store, AdmissionGrant(g.admission)) == Some(Granted(g))
    && Lookup(store, CredentialUse(g.issuer, g.generation)) == Some(UseOf(g))
    && Lookup(store, Binding(g.subject)) == Some(Bound(g.subject, g.subjectKey))
  }

  predicate IssuedHere(c: Context, store: Entries, admission: AdmissionId)
  {
    && AdmissionGrant(admission) in store && store[AdmissionGrant(admission)].Granted?
    && store[AdmissionGrant(admission)].grant.issuer == c.node
  }

  /** Every use this node stored comes with its grant and subject binding, and every grant it issued
      with its use. */
  ghost predicate Paired(c: Context, store: Entries)
  {
    && (forall generation :: CredentialUse(c.node, generation) in store ==>
          exists g: Grant :: g.issuer == c.node && g.generation == generation && Triple(store, g))
    && (forall admission :: IssuedHere(c, store, admission) ==> Triple(store, store[AdmissionGrant(admission)].grant))
  }

  ghost predicate Inv(c: Context, s: State)
  {
    && Paired(c, s.store)
    && (forall pid :: pid in s.attempts && s.attempts[pid].Committing? ==>
          AttemptOk(c, s.attempts[pid]))
    && (forall p, g :: (p, g) in s.returned ==> Answers(c, p, g) && Triple(s.store, g) && InCluster(s.store, g))
  }

  /** The grant is of the cluster this node belongs to. */
  predicate InCluster(store: Entries, g: Grant)
  {
    Lookup(store, ClusterPointer) == Some(Pointer(g.cluster))
  }

  /** A prepared commit answers its proposal, in the cluster of the pointer it is pinned to. */
  predicate AttemptOk(c: Context, a: Attempt)
    requires a.Committing?
  {
    Answers(c, a.proposal, a.grant) && a.pointer == Pointer(a.grant.cluster)
  }

  /** Records are only ever added. */
  ghost predicate Extends(store: Entries, later: Entries)
  {
    forall key :: key in store ==> key in later && later[key] == store[key]
  }

  lemma CommitEffect(c: Context, store: Entries, a: Attempt)
    requires a.Committing? && Answers(c, a.proposal, a.grant) && Admits(store, CommitOps(c, a))
    ensures var g := a.grant;
            && Apply(store, CommitOps(c, a)) ==
               store[Binding(g.subject) := Bound(g.subject, g.subjectKey)]
                    [CredentialUse(g.issuer, g.generation) := UseOf(g)]
                    [AdmissionGrant(g.admission) := Granted(g)]
            && Binding(g.subject) !in store && CredentialUse(g.issuer, g.generation) !in store
            && AdmissionGrant(g.admission) !in store
  {
    var ops := CommitOps(c, a);
    assert ConditionMatches(store, ops[3]) && ConditionMatches(store, ops[4]) && ConditionMatches(store, ops[5]);
    ApplyOneOperation(store, ops[0]);
    ApplyLast(store, [ops[0]], ops[1]);
    ApplyLast(store, [ops[0], ops[1]], ops[2]);
    ApplyLast(store, [ops[0], ops[1], ops[2]], ops[3]);
    ApplyLast(store, [ops[0], ops[1], ops[2], ops[3]], ops[4]);
    ApplyLast(store, [ops[0], ops[1], ops[2], ops[3], ops[4]], ops[5]);
    assert [ops[0]] + [ops[1]] == [ops[0], ops[1]];
    assert [ops[0], ops[1]] + [ops[2]] == [ops[0], ops[1], ops[2]];
    assert [ops[0], ops[1], ops[2]] + [ops[3]] == [ops[0], ops[1], ops[2], ops[3]];
    assert [ops[0], ops[1], ops[2], ops[3]] + [ops[4]] == [ops[0], ops[1], ops[2], ops[3], ops[4]];
    assert ops == [ops[0], ops[1], ops[2], ops[3], ops[4]] + [ops[5]];
  }

  /** When a prepared admission takes effect: the node, its cluster and its own binding are what the snapshot
      showed, and nothing of the proposal has been stored since. */
  lemma CommitAdmitted(c: Context, store: Entries, a: Attempt)
    requires a.Committing?
    ensures Admits(store, CommitOps(c, a)) <==>
            && Lookup(store, LocalIdentity) == Some(a.local) && Lookup(store, ClusterPointer) == Some(a.pointer)
            && Lookup(store, Binding(c.node)) == Some(a.issuer) && Binding(a.proposal.subject) !in store
            && CredentialUse(c.node, a.proposal.generation) !in store && AdmissionGrant(a.proposal.admission) !in store
  {
    var ops := CommitOps(c, a);
    assert Admits(store, ops) <==>
           && ConditionMatches(store, ops[0]) && ConditionMatches(store, ops[1]) && ConditionMatches(store, ops[2])
           && ConditionMatches(store, ops[3]) && ConditionMatches(store, ops[4]) && ConditionMatches(store, ops[5]);
  }

  lemma CommitInCluster(c: Context, store: Entries, a: Attempt)
    requires a.Committing? && AttemptOk(c, a) && Admits(store, CommitOps(c, a))
    ensures InCluster(store, a.grant)
  {
    assert ConditionMatches(store, CommitOps(c, a)[1]);
  }

  lemma TripleExtends(store: Entries, later: Entries, g: Grant)
    requires Extends(store, later) && Triple(store, g)
    ensures Triple(later, g)
  {
    assert AdmissionGrant(g.admission) in store && CredentialUse(g.issuer, g.generation) in store;
    assert Binding(g.subject) in store;
  }

  /** An applied commit adds one complete triple and disturbs no other. */
  lemma CommitKeepsPaired(c: Context, store: Entries, a: Attempt)
    requires Paired(c, store)
    requires a.Committing? && Answers(c, a.proposal, a.grant) && Admits(store, CommitOps(c, a))
    ensures var later := Apply(store, CommitOps(c, a));
            Extends(store, later) && Paired(c, later) && Triple(later, a.grant)
  {
    CommitEffect(c, store, a);
    hide CommitOps, Apply, Answers, Admits;
    var later := Apply(store, CommitOps(c, a));
    assert Extends(store, later) && Triple(later, a.grant);
    PairedExtends(c, store, later, a.grant);
  }

  lemma PairedExtends(c: Context, store: Entries, later: Entries, g: Grant)
    requires Paired(c, store) && Extends(store, later)
    requires Triple(later, g) && g.issuer == c.node
    requires forall key :: key in later && key !in store && !key.Binding? ==>
      key == CredentialUse(g.issuer, g.generation) || key == AdmissionGrant(g.admission)
    ensures Paired(c, later)
  {
    forall generation | CredentialUse(c.node, generation) in later
      ensures exists g': Grant :: g'.issuer == c.node && g'.generation == generation && Triple(later, g')
    {
      if CredentialUse(c.node, generation) in store {
        var g': Grant :| g'.issuer == c.node && g'.generation == generation && Triple(store, g');
        TripleExtends(store, later, g');
      }
    }
    forall admission | IssuedHere(c, later, admission)
      ensures Triple(later, later[AdmissionGrant(admission)].grant)
    {
      if AdmissionGrant(admission) in store {
        assert IssuedHere(c, store, admission);
        TripleExtends(store, later, store[AdmissionGrant(admission)].grant);
      }
    }
  }

  /** Writers that add neither a use nor a grant of this issuer. */
  ghost predicate AddsOthers(c: Context, store: Entries, later: Entries)
  {
    Extends(store, later) &&
    forall key :: key in later && key !in store ==>
      match key
      case Binding(_) => true
      case ClusterPointer => true
      case AdmissionGrant(_) => later[key].Granted? && later[key].grant.issuer != c.node
      case _ => false
  }

  lemma OthersKeepPaired(c: Context, store: Entries, later: Entries)
    requires Paired(c, store) && AddsOthers(c, store, later)
    ensures Paired(c, later)
  {
    forall generation | CredentialUse(c.node, generation) in later
      ensures exists g: Grant :: g.issuer == c.node && g.generation == generation && Triple(later, g)
    {
      var g: Grant :| g.issuer == c.node && g.generation == generation && Triple(store, g);
      TripleExtends(store, later, g);
    }
    forall admission | IssuedHere(c, later, admission)
      ensures Triple(later, later[AdmissionGrant(admission)].grant)
    {
      assert IssuedHere(c, store, admission);
      TripleExtends(store, later, store[AdmissionGrant(admission)].grant);
    }
  }

  lemma AdoptEffect(c: Context, store: Entries, g: Grant, issuerKey: PublicKey)
    requires Admits(store, AdoptOps(c, g, issuerKey))
    ensures Apply(store, AdoptOps(c, g, issuerKey)) ==
            store[Binding(g.issuer) := Bound(g.issuer, issuerKey)]
                 [AdmissionGrant(g.admission) := Granted(g)][ClusterPointer := Pointer(g.cluster)]
    ensures Binding(g.issuer) !in store && AdmissionGrant(g.admission) !in store && ClusterPointer !in store
  {
    var ops := AdoptOps(c, g, issuerKey);
    assert ConditionMatches(store, ops[1]) && ConditionMatches(store, ops[2]) && ConditionMatches(store, ops[3]);
    ApplyOneOperation(store, ops[0]);
    ApplyLast(store, [ops[0]], ops[1]);
    ApplyLast(store, [ops[0], ops[1]], ops[2]);
    ApplyLast(store, [ops[0], ops[1], ops[2]], ops[3]);
    assert [ops[0]] + [ops[1]] == [ops[0], ops[1]];
    assert [ops[0], ops[1]] + [ops[2]] == [ops[0], ops[1], ops[2]];
    assert ops == [ops[0], ops[1], ops[2]] + [ops[3]];
  }

  lemma AdoptAddsOthers(c: Context, store: Entries, g: Grant, issuerKey: PublicKey)
    requires Adoptable(c, g, issuerKey) && Admits(store, AdoptOps(c, g, issuerKey))
    ensures AddsOthers(c, store, Apply(store, AdoptOps(c, g, issuerKey)))
  {
    AdoptEffect(c, store, g, issuerKey);
    hide Apply, Admits, AdoptOps;
  }

  /** `admission_state` hands out a grant only when the exact triple is stored. */
  lemma ConsumedMeansStored(c: Context, store: Entries, p: Proposal)
    requires Classify(c, store, p).Consumed?
    ensures Answers(c, p, Classify(c, store, p).grant) && Triple(store, Classify(c, store, p).grant)
    ensures InCluster(store, Classify(c, store, p).grant)
  {
  }

  /** And it recognises every stored triple of the current cluster that answers the proposal. */
  lemma StoredMeansConsumed(c: Context, store: Entries, p: Proposal, g: Grant)
    requires Answers(c, p, g) && Triple(store, g) && InCluster(store, g)
    ensures Classify(c, store, p) == Consumed(g)
  {
  }

  /** A proposal is new exactly when nothing of it is stored. */
  lemma NothingExactly(c: Context, store: Entries, p: Proposal)
    requires ClusterPointer in store ==> store[ClusterPointer].Pointer?
    ensures Classify(c, store, p) == Nothing <==>
            && CredentialUse(c.node, p.generation) !in store && AdmissionGrant(p.admission) !in store
            && Binding(p.subject) !in store
  {
  }

  lemma StepKeeps(c: Context, s: State, e: Event)
    requires Inv(c, s) && Next(c, s, e).Some?
    ensures Inv(c, Next(c, s, e).value) && Extends(s.store, Next(c, s, e).value.store)
  {
    hide Paired, Triple, Answers, Classify, CommitOps;
    match e
    case Start(_, _, _) =>
    case Crash(_) =>
    case Read(pid, signature) => ReadKeeps(c, s, pid, signature);
    case Commit(pid, applied, report) =>
      var a := s.attempts[pid];
      if applied {
        CommitKeepsPaired(c, s.store, a);
        CommitInCluster(c, s.store, a);
        var later := Apply(s.store, CommitOps(c, a));
        forall p, g | (p, g) in s.returned ensures Triple(later, g) {
          TripleExtends(s.store, later, g);
        }
      }
    case AdoptBinding(node, key) =>
      OthersStepKeeps(c, s, s.store[Binding(node) := Bound(node, key)]);
    case AdoptGrant(grant, issuerKey) =>
      AdoptAddsOthers(c, s.store, grant, issuerKey);
      OthersStepKeeps(c, s, Apply(s.store, AdoptOps(c, grant, issuerKey)));
  }

  lemma OthersStepKeeps(c: Context, s: State, later: Entries)
    requires Inv(c, s) && AddsOthers(c, s.store, later)
    ensures Inv(c, s.(store := later)) && Extends(s.store, later)
  {
    OthersKeepPaired(c, s.store, later);
    hide Paired, Triple, Answers;
    forall p, g | (p, g) in s.returned ensures Triple(later, g) {
      TripleExtends(s.store, later, g);
    }
  }

  lemma ReadKeeps(c: Context, s: State, pid: Pid, signature: Signature)
    requires Inv(c, s) && pid in s.attempts && !s.attempts[pid].Committing?
    ensures var k := AfterRead(c, s.store, s.attempts[pid], signature);
            Inv(c, Continue(s, pid, s.attempts[pid].proposal, k))
  {
    var a := s.attempts[pid];
    var k := AfterRead(c, s.store, a, signature);
    if k.Returns? {
      ConsumedMeansStored(c, s.store, a.proposal);
    }
    hide Paired, Triple, Classify;
    if k.Goes? && k.attempt.Committing? {
      assert AttemptOk(c, k.attempt);
    }
  }

  lemma {:induction false} RunKeeps(c: Context, s: State, events: seq<Event>)
    requires Inv(c, s) && Run(c, s, events).Some?
    ensures Inv(c, Run(c, s, events).value) && Extends(s.store, Run(c, s, events).value.store)
    decreases |events|
  {
    hide Inv, Next;
    if events != [] {
      var front := events[..|events| - 1];
      RunKeeps(c, s, front);
      StepKeeps(c, Run(c, s, front).value, events[|events| - 1]);
    }
  }

  // ---- The theorems ----

  /** Start: no attempt running, nothing returned yet, stored triples complete. */
  ghost predicate AtRest(c: Context, s: State)
  {
    Paired(c, s.store) && s.attempts == map[] && s.returned == {}
  }

  ghost predicate Reachable(c: Context, s: State, t: State)
  {
    exists events :: Run(c, s, events) == Some(t)
  }

  /** Whenever a grant was returned, that exact grant is stored with its use and binding, answers the
      proposal, is of this node's cluster, and carries a valid signature; and it stays stored. */
  lemma ReturnedGrantIsStored(c: Context, s: State, t: State, p: Proposal, g: Grant)
    requires AtRest(c, s) && Reachable(c, s, t) && (p, g) in t.returned
    ensures Answers(c, p, g) && Triple(t.store, g) && InCluster(t.store, g)
  {
    var events :| Run(c, s, events) == Some(t);
    RunKeeps(c, s, events);
  }

  /** A proposal once answered is answered the same for good: in every later state a replay finds that very
      grant consumed and returns it. */
  lemma ReplayReturnsSame(
    c: Context, s: State, t: State, u: State, p: Proposal, g: Grant, signature: Signature)
    requires AtRest(c, s) && Reachable(c, s, t) && Reachable(c, t, u) && (p, g) in t.returned
    ensures Classify(c, u.store, p) == Consumed(g)
    ensures AfterRead(c, u.store, Classifying(p), signature) == Returns(g)
    ensures var k := AfterRead(c, u.store, Reading(p), signature);
            k == Goes(Classifying(p)) || (k == Ended && !Opened(c, u.store))
  {
    ReturnedGrantIsStored(c, s, t, p, g);
    var events :| Run(c, s, events) == Some(t);
    RunKeeps(c, s, events);
    var more :| Run(c, t, more) == Some(u);
    RunKeeps(c, t, more);
    TripleExtends(t.store, u.store, g);
    hide Run, Inv, Paired;
    assert ClusterPointer in t.store;
    StoredMeansConsumed(c, u.store, p, g);
  }

  /** The node is who its context says, belongs to a cluster, and is bound there. */
  predicate Opened(c: Context, store: Entries)
  {
    && Lookup(store, LocalIdentity) == Some(Identity(c.node, c.key))
    && ClusterPointer in store && store[ClusterPointer].Pointer?
    && Lookup(store, Binding(c.node)) == Some(Bound(c.node, c.key))
  }

  /** The grant a proposal gets when nothing of it is stored. */
  function GrantFor(c: Context, cluster: Cluster, p: Proposal, signature: Signature): Grant
  {
    Grant(cluster, p.admission, p.subject, p.subjectKey, c.node, p.generation, signature)
  }

  /** A new proposal at an open node is granted: the attempt prepares, commits and returns the grant of this
      cluster for exactly that proposal. */
  lemma NewProposalIsGranted(c: Context, s: State, pid: Pid, p: Proposal, signature: Signature)
    requires pid !in s.attempts && Opened(c, s.store)
    requires Binding(p.subject) !in s.store && CredentialUse(c.node, p.generation) !in s.store
    requires AdmissionGrant(p.admission) !in s.store
    requires c.verifies(c.key, GrantFor(c, s.store[ClusterPointer].cluster, p, signature))
    ensures var g := GrantFor(c, s.store[ClusterPointer].cluster, p, signature);
            var events := [Start(pid, p, false), Read(pid, signature), Commit(pid, true, Committed)];
            var t := Run(c, s, events);
            && t.Some? && t.value.returned == s.returned + {(p, g)} && Triple(t.value.store, g)
            && t.value.attempts == s.attempts && Extends(s.store, t.value.store)
  {
    var g := GrantFor(c, s.store[ClusterPointer].cluster, p, signature);
    var a := Committing(p, g, s.store[LocalIdentity], s.store[ClusterPointer], s.store[Binding(c.node)]);
    assert AfterRead(c, s.store, Reading(p), signature) == Goes(a);
    assert Admits(s.store, CommitOps(c, a));
    CommitEffect(c, s.store, a);
    var e0, e1, e2 := Start(pid, p, false), Read(pid, signature), Commit(pid, true, Committed);
    var s1 := s.(attempts := s.attempts[pid := Reading(p)]);
    var s2 := s.(attempts := s.attempts[pid := a]);
    hide AfterRead, Admits, CommitOps, Apply, Classify;
    assert Next(c, s, e0) == Some(s1);
    assert s1.attempts[pid := a] == s2.attempts;
    assert Next(c, s1, e1) == Some(s2);
    ThreeEvents(c, s, e0, e1, e2);
    assert s2.attempts - {pid} == s.attempts;
  }

  /** A commit reported aborted is looked up: if it was applied after all, the very grant it stored is
      returned. */
  lemma AbortedButAppliedReturns(c: Context, s: State, pid: Pid, signature: Signature)
    requires Inv(c, s) && pid in s.attempts && s.attempts[pid].Committing?
    requires Admits(s.store, CommitOps(c, s.attempts[pid]))
    ensures var a := s.attempts[pid];
            var t := Next(c, s, Commit(pid, true, Aborted));
            && t.Some? && t.value.attempts == s.attempts[pid := Classifying(a.proposal)]
            && Next(c, t.value, Read(pid, signature)) ==
               Some(t.value.(attempts := s.attempts - {pid}, returned := s.returned + {(a.proposal, a.grant)}))
  {
    var a := s.attempts[pid];
    CommitEffect(c, s.store, a);
    CommitInCluster(c, s.store, a);
    var later := Apply(s.store, CommitOps(c, a));
    hide Inv, Apply, CommitOps, Admits;
    assert Triple(later, a.grant) && InCluster(later, a.grant);
    StoredMeansConsumed(c, later, a.proposal, a.grant);
    hide Classify;
    var t := Next(c, s, Commit(pid, true, Aborted)).value;
    assert t.attempts - {pid} == s.attempts - {pid};
  }

  /** When a grant of another issuer is adopted, and what is stored then: the issuer's binding, the grant,
      and the pointer to its cluster. */
  lemma AdoptedExactly(c: Context, s: State, g: Grant, issuerKey: PublicKey)
    ensures var t := Next(c, s, AdoptGrant(g, issuerKey));
            && (t.Some? <==>
                && Adoptable(c, g, issuerKey) && Lookup(s.store, LocalIdentity) == Some(Identity(c.node, c.key))
                && Binding(g.issuer) !in s.store && AdmissionGrant(g.admission) !in s.store
                && ClusterPointer !in s.store)
            && (t.Some? ==> t.value == s.(store :=
                  s.store[Binding(g.issuer) := Bound(g.issuer, issuerKey)]
                         [AdmissionGrant(g.admission) := Granted(g)]
                         [ClusterPointer := Pointer(g.cluster)]))
  {
    AdoptAdmitted(c, s.store, g, issuerKey);
    if Admits(s.store, AdoptOps(c, g, issuerKey)) {
      AdoptEffect(c, s.store, g, issuerKey);
    }
    hide Admits, Apply, AdoptOps;
  }

  lemma AdoptAdmitted(c: Context, store: Entries, g: Grant, issuerKey: PublicKey)
    ensures Admits(store, AdoptOps(c, g, issuerKey)) <==>
            && Lookup(store, LocalIdentity) == Some(Identity(c.node, c.key)) && Binding(g.issuer) !in store
            && AdmissionGrant(g.admission) !in store && ClusterPointer !in store
  {
    var ops := AdoptOps(c, g, issuerKey);
    assert Admits(store, ops) <==>
           && ConditionMatches(store, ops[0]) && ConditionMatches(store, ops[1])
           && ConditionMatches(store, ops[2]) && ConditionMatches(store, ops[3]);
  }

  lemma ThreeEvents(c: Context, s: State, e0: Event, e1: Event, e2: Event)
    requires Next(c, s, e0).Some? && Next(c, Next(c, s, e0).value, e1).Some?
    ensures Run(c, s, [e0, e1, e2]) == Next(c, Next(c, Next(c, s, e0).value, e1).value, e2)
  {
    hide Next;
    assert [e0, e1, e2][..2] == [e0, e1] && [e0, e1][..1] == [e0] && [e0][..0] == [];
    assert Run(c, s, [e0]) == Next(c, s, e0);
    assert Run(c, s, [e0, e1]) == Next(c, Next(c, s, e0).value, e1);
  }

  /** Every stored use has its matching grant and subject binding. */
  lemma UseHasGrantAndBinding(c: Context, s: State, t: State, generation: Generation)
    requires AtRest(c, s) && Reachable(c, s, t) && CredentialUse(c.node, generation) in t.store
    ensures exists g: Grant :: g.issuer == c.node && g.generation == generation && Triple(t.store, g)
  {
    var events :| Run(c, s, events) == Some(t);
    RunKeeps(c, s, events);
  }

  /** One issuer generation never binds two subjects: any two grants this node issued for it, stored
      at any two moments of a run, are the same grant. */
  lemma GenerationBindsOneSubject(c: Context, s: State, t: State, u: State, g: Grant, h: Grant)
    requires AtRest(c, s) && Reachable(c, s, t) && Reachable(c, t, u)
    requires Lookup(t.store, AdmissionGrant(g.admission)) == Some(Granted(g)) && g.issuer == c.node
    requires Lookup(u.store, AdmissionGrant(h.admission)) == Some(Granted(h)) && h.issuer == c.node
    requires g.generation == h.generation
    ensures g == h
  {
    var events :| Run(c, s, events) == Some(t);
    RunKeeps(c, s, events);
    var more :| Run(c, t, more) == Some(u);
    RunKeeps(c, t, more);
    assert IssuedHere(c, t.store, g.admission) && IssuedHere(c, u.store, h.admission);
    TripleExtends(t.store, u.store, g);
  }

  /** So two callers that were given grants for one generation hold the same grant and asked for the
      same subject. */
  lemma ReturnedGrantsAgree(c: Context, s: State, t: State, p: Proposal, g: Grant, q: Proposal, h: Grant)
    requires AtRest(c, s) && Reachable(c, s, t) && (p, g) in t.returned && (q, h) in t.returned
    requires p.generation == q.generation
    ensures g == h && p == q
  {
    ReturnedGrantIsStored(c, s, t, p, g);
    ReturnedGrantIsStored(c, s, t, q, h);
    assert Run(c, t, []) == Some(t);
    GenerationBindsOneSubject(c, s, t, t, g, h);
  }
}
