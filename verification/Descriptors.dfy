/**
 Node descriptors and how a store merges what it receives of them: which deliveries it takes, under
 adversarial commit outcomes, and what any sequence of deliveries leaves.
 */
module Descriptors {
  import opened Wrappers

  type Node = nat
  type Content = nat

  datatype Descriptor = Descriptor(node: Node, revision: nat, removed: bool, content: Content)

  datatype Report = Committed | Aborted | Conflict | Unknown

  /** What the store reports of a commit, and whether it was applied. Only `Committed` settles that. */
  datatype Outcome = Outcome(report: Report, applied: bool)

  predicate Possible(outcome: Outcome)
  {
    outcome.report.Committed? ==> outcome.applied
  }

  datatype Rejection = StaleRevision | RemovalStands | UnknownNode | CommitConflict | CommitUnknown

  type Records = map<Node, Descriptor>

  /** A descriptor on a received page, with the outcome its commit will meet. */
  datatype Delivery = Delivery(descriptor: Descriptor, outcome: Outcome)

  /** The revision and removal rules, before anything is written. */
  function Refusal(records: Records, trusted: set<Node>, d: Descriptor): Option<Rejection>
  {
    if d.node in records then
      var existing := records[d.node];
      if d.revision <= existing.revision then Some(StaleRevision)
      else if existing.removed && !d.removed then Some(RemovalStands)
      else None
    else if d.revision != 1 && d.node !in trusted then Some(UnknownNode)
    else None
  }

  function Reported(report: Report): Result<(), Rejection>
  {
    match report
    case Committed => Ok(())
    case Aborted => Ok(())
    case Conflict => Err(CommitConflict)
    case Unknown => Err(CommitUnknown)
  }

  /** What the caller is told. */
  function Answer(records: Records, trusted: set<Node>, x: Delivery): Result<(), Rejection>
  {
    var refusal := Refusal(records, trusted, x.descriptor);
    if refusal.Some? then Err(refusal.value) else Reported(x.outcome.report)
  }

  function Deliver(records: Records, trusted: set<Node>, x: Delivery): Records
  {
    if Refusal(records, trusted, x.descriptor).None? && x.outcome.applied
    then records[x.descriptor.node := x.descriptor]
    else records
  }

  /** Any number of deliveries in the order they arrive. */
  function Run(records: Records, trusted: set<Node>, xs: seq<Delivery>): Records
  {
    if xs == [] then records
    else Deliver(Run(records, trusted, xs[..|xs| - 1]), trusted, xs[|xs| - 1])
  }

  /** The nodes a page reports as applied. */
  function AppliedNodes(records: Records, trusted: set<Node>, xs: seq<Delivery>): seq<Node>
  {
    if xs == [] then []
    else
      var before := xs[..|xs| - 1];
      var x := xs[|xs| - 1];
      AppliedNodes(records, trusted, before) +
      (if Answer(Run(records, trusted, before), trusted, x).Ok? then [x.descriptor.node] else [])
  }

  class MemberStore {
    var records: Records
    var trusted: set<Node>

    constructor (trusted: set<Node>)
      ensures records == map[] && this.trusted == trusted
    {
      records := map[];
      this.trusted := trusted;
    }

    method StoreDescriptor(d: Descriptor, outcome: Outcome) returns (r: Result<(), Rejection>)
      modifies this`records
      ensures records == Deliver(old(records), trusted, Delivery(d, outcome))
      ensures r == Answer(old(records), trusted, Delivery(d, outcome))
    {
      if d.node in records {
        var existing := records[d.node];
        if d.revision <= existing.revision {
          return Err(StaleRevision);
        }
        if existing.removed && !d.removed {
          return Err(RemovalStands);
        }
      } else if d.revision != 1 {
        if d.node !in trusted {
          return Err(UnknownNode);
        }
      }
      if outcome.applied {
        records := records[d.node := d];
      }
      r := Reported(outcome.report);
    }

    /** The loop over one page. Its skip of descriptors already held never changes the result. */
    method ApplyPage(page: seq<Delivery>) returns (applied: seq<Node>)
      modifies this`records
      ensures records == Run(old(records), trusted, page)
      ensures applied == AppliedNodes(old(records), trusted, page)
    {
      applied := [];
      for i := 0 to |page|
        invariant records == Run(old(records), trusted, page[..i])
        invariant applied == AppliedNodes(old(records), trusted, page[..i])
      {
        var d := page[i].descriptor;
        assert page[..i + 1][..i] == page[..i];
        if d.node in records && records[d.node].revision >= d.revision {
          continue;
        }
        var r := StoreDescriptor(d, page[i].outcome);
        if r.Ok? {
          applied := applied + [d.node];
        }
      }
      assert page[..|page|] == page;
    }
  }

  lemma {:induction false} RunSplit(records: Records, trusted: set<Node>, xs: seq<Delivery>, ys: seq<Delivery>)
    ensures Run(records, trusted, xs + ys) == Run(Run(records, trusted, xs), trusted, ys)
  {
    if ys == [] {
      assert xs + ys == xs;
    } else {
      RunSplit(records, trusted, xs, ys[..|ys| - 1]);
      assert (xs + ys)[..|xs + ys| - 1] == xs + ys[..|ys| - 1];
    }
  }

  // ---- Whatever is delivered ----

  /** How one node's record may move: never lost, never back to an older revision, never back to life. */
  ghost predicate Advances(before: Records, after: Records)
  {
    forall n :: n in before ==>
      && n in after
      && before[n].revision <= after[n].revision
      && (before[n].removed ==> after[n].removed)
      && (before[n].revision == after[n].revision ==> before[n] == after[n])
  }

  ghost predicate Keyed(records: Records)
  {
    forall n :: n in records ==> records[n].node == n
  }

  /** Over every run, whatever is delivered: stored revisions never decrease, a removal is never undone,
      and a revision once stored keeps its content. */
  lemma {:induction false} RunAdvances(records: Records, trusted: set<Node>, xs: seq<Delivery>)
    ensures Advances(records, Run(records, trusted, xs))
  {
    if xs != [] {
      RunAdvances(records, trusted, xs[..|xs| - 1]);
    }
  }

  /** A record appears for an unknown node only at revision 1, or with a binding. */
  lemma {:induction false} FirstInstall(records: Records, trusted: set<Node>, xs: seq<Delivery>, n: Node)
    requires n !in records && n !in trusted
    requires forall i :: 0 <= i < |xs| && xs[i].descriptor.node == n && xs[i].outcome.applied ==>
               xs[i].descriptor.revision != 1
    ensures n !in Run(records, trusted, xs)
  {
    if xs != [] {
      FirstInstall(records, trusted, xs[..|xs| - 1], n);
    }
  }

  // ---- One owner history ----

  /** A history gives the owner's one descriptor of each revision. */
  type History = (Node, nat) -> Descriptor

  ghost predicate Coherent(h: History)
  {
    forall n: Node, r: nat {:trigger h(n, r)} :: h(n, r).node == n && h(n, r).revision == r
  }

  ghost predicate RemovalPermanent(h: History, n: Node)
  {
    forall r: nat, s: nat {:trigger h(n, r), h(n, s)} :: r <= s && h(n, r).removed ==> h(n, s).removed
  }

  ghost predicate FromHistory(h: History, n: Node, records: Records, xs: seq<Delivery>)
  {
    && (n in records ==> records[n] == h(n, records[n].revision))
    && (forall i :: 0 <= i < |xs| && xs[i].descriptor.node == n ==>
          xs[i].descriptor == h(n, xs[i].descriptor.revision))
  }

  /** The revisions of a node whose delivery reached the store. */
  function Landed(xs: seq<Delivery>, n: Node): set<nat>
  {
    set i | 0 <= i < |xs| && xs[i].descriptor.node == n && xs[i].outcome.applied :: xs[i].descriptor.revision
  }

  function HeldRevision(records: Records, n: Node): set<nat>
  {
    if n in records then {records[n].revision} else {}
  }

  /** The record is the history's descriptor of the highest of `revisions`, and absent when there is none. */
  ghost predicate HoldsHighest(records: Records, h: History, n: Node, revisions: set<nat>)
  {
    if n in records
    then
      && records[n] == h(n, records[n].revision)
      && records[n].revision in revisions
      && (forall r :: r in revisions ==> r <= records[n].revision)
    else revisions == {}
  }

  lemma LandedStep(xs: seq<Delivery>, n: Node)
    requires xs != []
    ensures var x := xs[|xs| - 1];
            Landed(xs, n) == Landed(xs[..|xs| - 1], n) +
            if x.descriptor.node == n && x.outcome.applied then {x.descriptor.revision} else {}
  {
    var before := xs[..|xs| - 1];
    forall r | r in Landed(before, n) ensures r in Landed(xs, n) {
      var i :| 0 <= i < |before| && before[i].descriptor.node == n && before[i].outcome.applied &&
               before[i].descriptor.revision == r;
      assert xs[i] == before[i];
    }
    forall r | r in Landed(xs, n) && r !in Landed(before, n) ensures r == xs[|xs| - 1].descriptor.revision {
      var i :| 0 <= i < |xs| && xs[i].descriptor.node == n && xs[i].outcome.applied &&
               xs[i].descriptor.revision == r;
    }
    var x := xs[|xs| - 1];
    if x.descriptor.node == n && x.outcome.applied {
      assert x.descriptor.revision in Landed(xs, n);
    }
  }

  /** For a trusted or already recorded node with one owner history, any deliveries in any order, with
      repeats and gaps, leave exactly the highest revision that reached the store. */
  lemma {:induction false} RunHoldsHighest(records: Records, trusted: set<Node>, xs: seq<Delivery>, n: Node, h: History)
    requires Coherent(h) && RemovalPermanent(h, n) && FromHistory(h, n, records, xs)
    requires n in trusted || n in records
    ensures HoldsHighest(Run(records, trusted, xs), h, n, HeldRevision(records, n) + Landed(xs, n))
  {
    if xs != [] {
      var before := xs[..|xs| - 1];
      RunHoldsHighest(records, trusted, before, n, h);
      RunAdvances(records, trusted, before);
      LandedStep(xs, n);
    }
  }

  /** Replicas that start alike and receive the same revisions, in whatever order, end alike. */
  lemma ReplicasAgree(
    records: Records, trusted: set<Node>, xs: seq<Delivery>, ys: seq<Delivery>, n: Node, h: History)
    requires Coherent(h) && RemovalPermanent(h, n)
    requires FromHistory(h, n, records, xs) && FromHistory(h, n, records, ys)
    requires n in trusted || n in records
    requires Landed(xs, n) == Landed(ys, n)
    ensures var a, b := Run(records, trusted, xs), Run(records, trusted, ys);
            (n in a <==> n in b) && (n in a ==> a[n] == b[n])
  {
    RunHoldsHighest(records, trusted, xs, n, h);
    RunHoldsHighest(records, trusted, ys, n, h);
  }

  /** For an untrusted, unrecorded node the history counts from the first revision 1 that lands. */
  lemma UntrustedCountsFromFirst(
    records: Records, trusted: set<Node>, xs: seq<Delivery>, k: nat, n: Node, h: History)
    requires Coherent(h) && RemovalPermanent(h, n) && FromHistory(h, n, records, xs)
    requires n !in trusted && n !in records
    requires k < |xs| && xs[k].descriptor == h(n, 1) && xs[k].outcome.applied
    requires forall i :: 0 <= i < k && xs[i].descriptor.node == n && xs[i].outcome.applied ==>
               xs[i].descriptor.revision != 1
    ensures HoldsHighest(Run(records, trusted, xs), h, n, {1} + Landed(xs[k + 1..], n))
  {
    var installed := Run(records, trusted, xs[..k + 1]);
    FirstInstall(records, trusted, xs[..k], n);
    assert xs[..k + 1][..k] == xs[..k];
    assert n in installed && installed[n] == h(n, 1);
    hide Run, Landed, RemovalPermanent;
    RunHoldsHighest(installed, trusted, xs[k + 1..], n, h);
    RunSplit(records, trusted, xs[..k + 1], xs[k + 1..]);
    assert xs[..k + 1] + xs[k + 1..] == xs;
    assert HeldRevision(installed, n) == {1};
  }

  ghost predicate AlwaysHighest(h: History, n: Node)
  {
    forall xs: seq<Delivery> | FromHistory(h, n, map[], xs) ::
      HoldsHighest(Run(map[], {n}, xs), h, n, Landed(xs, n))
  }

  /** Permanence of removal is what convergence rests on: the highest revision always wins exactly
      when the owner never comes back after a removal. */
  lemma ConvergesExactly(h: History, n: Node)
    requires Coherent(h)
    ensures AlwaysHighest(h, n) <==> RemovalPermanent(h, n)
  {
    if RemovalPermanent(h, n) {
      forall xs: seq<Delivery> | FromHistory(h, n, map[], xs)
        ensures HoldsHighest(Run(map[], {n}, xs), h, n, Landed(xs, n))
      {
        RunHoldsHighest(map[], {n}, xs, n, h);
        assert {} + Landed(xs, n) == Landed(xs, n);
      }
    } else {
      var r: nat, s: nat :| r <= s && h(n, r).removed && !h(n, s).removed;
      RemovalOutlivesReturn(h, n, r, s);
    }
  }

  lemma RemovalOutlivesReturn(h: History, n: Node, r: nat, s: nat)
    requires Coherent(h) && r <= s && h(n, r).removed && !h(n, s).removed
    ensures !AlwaysHighest(h, n)
  {
    var x, y := Delivery(h(n, r), Outcome(Committed, true)), Delivery(h(n, s), Outcome(Committed, true));
    var xs := [x, y];
    assert FromHistory(h, n, map[], xs);
    assert xs[..1] == [x] && [x][..0] == [];
    var first := Run(map[], {n}, [x]);
    assert first == Deliver(Run(map[], {n}, []), {n}, x) && first == map[n := h(n, r)];
    assert Run(map[], {n}, xs) == Deliver(first, {n}, y) == first;
    assert xs[1].descriptor.revision in Landed(xs, n);
  }

  // ---- What an answer tells ----

  /** Exactly what the answer to a delivery tells of the records after it: a refusal, that nothing
      changed; success, a conflict or an unknown outcome, that the descriptor was stored or not. Success
      is no exception, because an aborted commit is answered like a committed one. */
  lemma AnswerTells(records: Records, trusted: set<Node>, d: Descriptor, r: Result<(), Rejection>, after: Records)
    requires exists outcome :: Possible(outcome) && Answer(records, trusted, Delivery(d, outcome)) == r
    ensures (exists outcome :: Possible(outcome) && Answer(records, trusted, Delivery(d, outcome)) == r &&
                               Deliver(records, trusted, Delivery(d, outcome)) == after) <==>
            after == records || (Refusal(records, trusted, d).None? && after == records[d.node := d])
  {
    var report := if r.Ok? then Aborted else if r == Err(CommitConflict) then Conflict else Unknown;
    var stored, lost := Outcome(report, true), Outcome(report, false);
    if Refusal(records, trusted, d).None? {
      assert Answer(records, trusted, Delivery(d, stored)) == r && Answer(records, trusted, Delivery(d, lost)) == r;
      assert Deliver(records, trusted, Delivery(d, stored)) == records[d.node := d];
      assert Deliver(records, trusted, Delivery(d, lost)) == records;
    }
  }

  /** What a store takes: a later revision that does not undo a removal, or a first record that is revision
      1 or of a bound node. No revision in between is asked for. */
  predicate Takes(records: Records, trusted: set<Node>, d: Descriptor)
  {
    if d.node in records
    then records[d.node].revision < d.revision && (records[d.node].removed ==> d.removed)
    else d.revision == 1 || d.node in trusted
  }

  /** Exactly those deliveries change the records, if applied, and exactly those are answered by what is
      reported of their commit. */
  lemma TakenExactly(records: Records, trusted: set<Node>, x: Delivery)
    ensures var d := x.descriptor;
            && (Deliver(records, trusted, x) != records <==> Takes(records, trusted, d) && x.outcome.applied)
            && (Deliver(records, trusted, x) != records ==> Deliver(records, trusted, x) == records[d.node := d])
            && (Answer(records, trusted, x).Ok? <==>
                Takes(records, trusted, d) && (x.outcome.report.Committed? || x.outcome.report.Aborted?))
  {
    var d := x.descriptor;
    if Refusal(records, trusted, d).None? {
      assert records[d.node := d][d.node] == d;
    }
  }

  /** Why a delivery is refused. */
  lemma RefusalReasons(records: Records, trusted: set<Node>, d: Descriptor)
    ensures var r := Refusal(records, trusted, d);
            && (r == Some(UnknownNode) <==> d.node !in records && d.revision != 1 && d.node !in trusted)
            && (r == Some(StaleRevision) <==> d.node in records && d.revision <= records[d.node].revision)
            && (r == Some(RemovalStands) <==>
                d.node in records && d.revision > records[d.node].revision && records[d.node].removed && !d.removed)
            && (r.None? <==> Takes(records, trusted, d))
  {
  }

  /** The list a page is answered with: a node is on it exactly when a delivery of it was taken, on the
      records as they were then, and its commit was reported committed or aborted. */
  lemma {:induction false} ListedExactly(records: Records, trusted: set<Node>, xs: seq<Delivery>, n: Node)
    ensures n in AppliedNodes(records, trusted, xs) <==> OnList(records, trusted, xs, n)
  {
    if xs != [] {
      var before, last := xs[..|xs| - 1], |xs| - 1;
      ListedExactly(records, trusted, before, n);
      LastListed(records, trusted, xs);
      hide Run, Answer, Listed, OnList;
      OnListStep(records, trusted, xs, n);
    }
  }

  ghost predicate OnList(records: Records, trusted: set<Node>, xs: seq<Delivery>, n: Node)
  {
    exists i :: 0 <= i < |xs| && Listed(records, trusted, xs, i) && xs[i].descriptor.node == n
  }

  lemma LastListed(records: Records, trusted: set<Node>, xs: seq<Delivery>)
    requires xs != []
    ensures Listed(records, trusted, xs, |xs| - 1) <==>
            Answer(Run(records, trusted, xs[..|xs| - 1]), trusted, xs[|xs| - 1]).Ok?
  {
    TakenExactly(Run(records, trusted, xs[..|xs| - 1]), trusted, xs[|xs| - 1]);
    hide Run;
  }

  lemma OnListStep(records: Records, trusted: set<Node>, xs: seq<Delivery>, n: Node)
    requires xs != []
    ensures var last := |xs| - 1;
            OnList(records, trusted, xs, n) <==>
            || OnList(records, trusted, xs[..last], n)
            || (Listed(records, trusted, xs, last) && xs[last].descriptor.node == n)
  {
    var before, last := xs[..|xs| - 1], |xs| - 1;
    forall i | 0 <= i < last ensures Listed(records, trusted, before, i) == Listed(records, trusted, xs, i) {
      assert before[..i] == xs[..i] && before[i] == xs[i];
    }
    hide Listed;
    if OnList(records, trusted, before, n) {
      var i :| 0 <= i < |before| && Listed(records, trusted, before, i) && before[i].descriptor.node == n;
      assert Listed(records, trusted, xs, i) && xs[i].descriptor.node == n;
    }
    if OnList(records, trusted, xs, n) {
      var i :| 0 <= i < |xs| && Listed(records, trusted, xs, i) && xs[i].descriptor.node == n;
      assert i < last ==> Listed(records, trusted, before, i) && before[i].descriptor.node == n;
    }
  }

  predicate Listed(records: Records, trusted: set<Node>, xs: seq<Delivery>, i: nat)
    requires i < |xs|
  {
    && Takes(Run(records, trusted, xs[..i]), trusted, xs[i].descriptor)
    && (xs[i].outcome.report.Committed? || xs[i].outcome.report.Aborted?)
  }

  /** Only the report itself would tell more: a committed descriptor is stored. */
  lemma CommittedIsStored(records: Records, trusted: set<Node>, x: Delivery)
    requires Possible(x.outcome) && x.outcome.report.Committed? && Answer(records, trusted, x).Ok?
    ensures Deliver(records, trusted, x) == records[x.descriptor.node := x.descriptor]
  {
  }

  /** The store takes a skipped revision, not only the next one. */
  lemma SkippedRevisionAccepted(n: Node, a: Content, b: Content)
    ensures var first, third := Descriptor(n, 1, false, a), Descriptor(n, 3, false, b);
            Deliver(map[n := first], {}, Delivery(third, Outcome(Committed, true))) == map[n := third]
  {
  }
}
