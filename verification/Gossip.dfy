/**
 Anti-entropy among any number of stores. Pages are taken from a store's snapshot, travel for as long as
 they like, arrive in any order and any number of times, and commit with any outcome. Word of a revision
 spreads along the pages that land, and whoever it reaches holds that revision or a later one.
 */
module Gossip {
  import opened Wrappers
  import opened Descriptors
  import opened AntiEntropy

  type Store = nat
  type Mail = nat

  /** `mail` holds every page ever emitted. */
  datatype Cluster = Cluster(stores: map<Store, Records>, mail: map<Mail, seq<Descriptor>>)

  datatype Event =
    | Emit(from: Store, mail: Mail, page: seq<Descriptor>)
    | Take(to: Store, mail: Mail, outcomes: seq<Outcome>)
    | Publish(at: Store, descriptor: Descriptor, outcome: Outcome)

  type Trust = Store -> set<Node>

  function Arrivals(page: seq<Descriptor>, outcomes: seq<Outcome>): (xs: seq<Delivery>)
    requires |outcomes| == |page|
    ensures |xs| == |page| && forall k :: 0 <= k < |page| ==> xs[k] == Delivery(page[k], outcomes[k])
  {
    seq(|page|, k requires 0 <= k < |page| => Delivery(page[k], outcomes[k]))
  }

  predicate Snapshot(records: Records, page: seq<Descriptor>)
  {
    forall k :: 0 <= k < |page| ==> Holds(records, page[k])
  }

  function Next(trust: Trust, c: Cluster, e: Event): Option<Cluster>
  {
    match e
    case Emit(from, mail, page) =>
      if from in c.stores && mail !in c.mail && Snapshot(c.stores[from], page)
      then Some(c.(mail := c.mail[mail := page])) else None
    case Take(to, mail, outcomes) =>
      if to in c.stores && mail in c.mail && |outcomes| == |c.mail[mail]|
      then Some(Received(trust, c, to, Arrivals(c.mail[mail], outcomes))) else None
    case Publish(at, descriptor, outcome) =>
      if at in c.stores then Some(Received(trust, c, at, [Delivery(descriptor, outcome)])) else None
  }

  function Received(trust: Trust, c: Cluster, to: Store, xs: seq<Delivery>): Cluster
    requires to in c.stores
  {
    c.(stores := c.stores[to := Descriptors.Run(c.stores[to], trust(to), xs)])
  }

  function Run(trust: Trust, c: Cluster, events: seq<Event>): Option<Cluster>
    decreases |events|
  {
    if events == [] then Some(c) else
    var before := Run(trust, c, events[..|events| - 1]);
    if before.None? then None else Next(trust, before.value, events[|events| - 1])
  }

  // ---- How word of a revision spreads ----

  predicate Knows(records: Records, n: Node, r: nat)
  {
    n in records && records[n].revision >= r
  }

  predicate Mentions(page: seq<Descriptor>, n: Node)
  {
    exists k :: 0 <= k < |page| && page[k].node == n
  }

  /** Some delivery of the node was applied. */
  predicate LandsFor(xs: seq<Delivery>, n: Node)
  {
    exists k :: 0 <= k < |xs| && xs[k].descriptor.node == n && xs[k].outcome.applied
  }

  /** The stores and the pages that word has reached. */
  datatype Word = Word(stores: set<Store>, mail: set<Mail>)

  /** Who has heard, directly or through others, in the order of events: it starts with the stores that
      hold revision `r` or a later one, goes on with every page such a store emits of the node, and with
      every store where such a page lands. */
  ghost function Heard(trust: Trust, c: Cluster, n: Node, r: nat, events: seq<Event>): Word
    requires Run(trust, c, events).Some?
    decreases |events|
  {
    if events == [] then Word(set i | i in c.stores && Knows(c.stores[i], n, r), {}) else
    var front, e := events[..|events| - 1], events[|events| - 1];
    Passes(Heard(trust, c, n, r, front), Run(trust, c, front).value, n, r, e)
  }

  ghost function Passes(w: Word, c: Cluster, n: Node, r: nat, e: Event): Word
  {
    match e
    case Emit(from, mail, page) =>
      if from in w.stores && Mentions(page, n) then w.(mail := w.mail + {mail}) else w
    case Take(to, mail, outcomes) =>
      if mail in w.mail && mail in c.mail && |outcomes| == |c.mail[mail]| &&
         LandsFor(Arrivals(c.mail[mail], outcomes), n)
      then w.(stores := w.stores + {to}) else w
    case Publish(at, descriptor, outcome) =>
      if descriptor.node == n && descriptor.revision >= r && outcome.applied then w.(stores := w.stores + {at}) else w
  }

  // ---- The invariant ----

  /** Every descriptor of the node is the owner's, and none is later than `top`. */
  ghost predicate Genuine(h: History, n: Node, top: nat, ds: seq<Descriptor>)
  {
    forall k :: 0 <= k < |ds| && ds[k].node == n ==> ds[k] == h(n, ds[k].revision) && ds[k].revision <= top
  }

  ghost predicate GenuineRecord(h: History, n: Node, top: nat, records: Records)
  {
    n in records ==> records[n] == h(n, records[n].revision) && records[n].revision <= top
  }

  ghost predicate AllGenuine(h: History, n: Node, top: nat, c: Cluster)
  {
    && (forall i :: i in c.stores ==> GenuineRecord(h, n, top, c.stores[i]))
    && (forall m :: m in c.mail ==> Genuine(h, n, top, c.mail[m]))
  }

  /** A page that carries the word: whatever it says of the node is revision `r` or later. */
  ghost predicate Carries(page: seq<Descriptor>, n: Node, r: nat)
  {
    forall k :: 0 <= k < |page| && page[k].node == n ==> page[k].revision >= r
  }

  ghost predicate Told(w: Word, c: Cluster, n: Node, r: nat)
  {
    && (forall i :: i in w.stores ==> i in c.stores && Knows(c.stores[i], n, r))
    && (forall m :: m in w.mail ==> m in c.mail && Carries(c.mail[m], n, r))
  }

  /** The owner is the only author. */
  ghost predicate Authored(h: History, n: Node, top: nat, e: Event)
  {
    e.Publish? && e.descriptor.node == n ==>
      e.descriptor == h(n, e.descriptor.revision) && e.descriptor.revision <= top
  }

  // ---- One step ----

  ghost predicate Brings(xs: seq<Delivery>, n: Node, r: nat)
  {
    forall k :: 0 <= k < |xs| && xs[k].descriptor.node == n ==> xs[k].descriptor.revision >= r
  }

  /** What receiving does to the record of a trusted node: it stays genuine, never goes back, and is at
      least the revision of whatever landed. */
  lemma ReceivingTells(
    records: Records, trusted: set<Node>, xs: seq<Delivery>, h: History, n: Node, top: nat, r: nat)
    requires Coherent(h) && RemovalPermanent(h, n) && n in trusted
    requires GenuineRecord(h, n, top, records)
    requires forall k :: 0 <= k < |xs| && xs[k].descriptor.node == n ==>
               xs[k].descriptor == h(n, xs[k].descriptor.revision) && xs[k].descriptor.revision <= top
    ensures var after := Descriptors.Run(records, trusted, xs);
            && GenuineRecord(h, n, top, after)
            && (Knows(records, n, r) ==> Knows(after, n, r))
            && (LandsFor(xs, n) && Brings(xs, n, r) ==> Knows(after, n, r))
  {
    var after := Descriptors.Run(records, trusted, xs);
    RunHoldsHighest(records, trusted, xs, n, h);
    RunAdvances(records, trusted, xs);
    hide Descriptors.Run, RemovalPermanent;
    if LandsFor(xs, n) {
      var k :| 0 <= k < |xs| && xs[k].descriptor.node == n && xs[k].outcome.applied;
      assert xs[k].descriptor.revision in Landed(xs, n);
    }
  }

  lemma StepGenuine(trust: Trust, c: Cluster, e: Event, h: History, n: Node, top: nat)
    requires Coherent(h) && RemovalPermanent(h, n) && (forall i :: i in c.stores ==> n in trust(i))
    requires AllGenuine(h, n, top, c) && Authored(h, n, top, e) && Next(trust, c, e).Some?
    ensures AllGenuine(h, n, top, Next(trust, c, e).value)
  {
    hide Descriptors.Run, RemovalPermanent, Coherent;
    match e
    case Emit(from, mail, page) =>
      assert GenuineRecord(h, n, top, c.stores[from]);
      assert Genuine(h, n, top, page);
    case Take(to, mail, outcomes) =>
      assert Genuine(h, n, top, c.mail[mail]);
      ReceivingTells(c.stores[to], trust(to), Arrivals(c.mail[mail], outcomes), h, n, top, 0);
    case Publish(at, d, outcome) =>
      ReceivingTells(c.stores[at], trust(at), [Delivery(d, outcome)], h, n, top, 0);
  }

  lemma StepTells(trust: Trust, c: Cluster, e: Event, w: Word, h: History, n: Node, top: nat, r: nat)
    requires Coherent(h) && RemovalPermanent(h, n) && (forall i :: i in c.stores ==> n in trust(i))
    requires AllGenuine(h, n, top, c) && Authored(h, n, top, e) && Next(trust, c, e).Some? && Told(w, c, n, r)
    ensures Told(Passes(w, c, n, r, e), Next(trust, c, e).value, n, r)
  {
    hide Descriptors.Run, RemovalPermanent, Coherent;
    match e
    case Emit(from, mail, page) =>
      if from in w.stores {
        assert Knows(c.stores[from], n, r);
        assert Carries(page, n, r);
      }
    case Take(to, mail, outcomes) =>
      assert Genuine(h, n, top, c.mail[mail]);
      var xs := Arrivals(c.mail[mail], outcomes);
      assert mail in w.mail ==> Brings(xs, n, r);
      ReceivingTells(c.stores[to], trust(to), xs, h, n, top, r);
    case Publish(at, d, outcome) =>
      var xs := [Delivery(d, outcome)];
      assert outcome.applied && d.node == n ==> LandsFor(xs, n) by { assert xs[0] == Delivery(d, outcome); }
      ReceivingTells(c.stores[at], trust(at), xs, h, n, top, r);
  }

  lemma StoresStay(trust: Trust, c: Cluster, e: Event)
    requires Next(trust, c, e).Some?
    ensures Next(trust, c, e).value.stores.Keys == c.stores.Keys
  {
  }

  // ---- Whole schedules ----

  ghost predicate Owned(h: History, n: Node, top: nat, events: seq<Event>)
  {
    forall k :: 0 <= k < |events| ==> Authored(h, n, top, events[k])
  }

  /** Over every schedule, whoever word of revision `r` reaches holds that revision or a later one, and
      nobody holds anything the owner did not write. */
  lemma {:induction false} WordHolds(
    trust: Trust, c: Cluster, events: seq<Event>, h: History, n: Node, top: nat, r: nat)
    requires Coherent(h) && RemovalPermanent(h, n) && (forall i :: i in c.stores ==> n in trust(i))
    requires AllGenuine(h, n, top, c) && Owned(h, n, top, events) && Run(trust, c, events).Some?
    ensures var d := Run(trust, c, events).value;
            && d.stores.Keys == c.stores.Keys && AllGenuine(h, n, top, d)
            && Told(Heard(trust, c, n, r, events), d, n, r)
    decreases |events|
  {
    hide Next, Coherent, RemovalPermanent, AllGenuine, Told, Passes, Authored;
    if events == [] {
      assert Told(Heard(trust, c, n, r, []), c, n, r) by { FirstTold(trust, c, n, r); }
    } else {
      var front, e := events[..|events| - 1], events[|events| - 1];
      WordHolds(trust, c, front, h, n, top, r);
      var before := Run(trust, c, front).value;
      StepGenuine(trust, before, e, h, n, top);
      StepTells(trust, before, e, Heard(trust, c, n, r, front), h, n, top, r);
      StoresStay(trust, before, e);
    }
  }

  lemma FirstTold(trust: Trust, c: Cluster, n: Node, r: nat)
    ensures Told(Heard(trust, c, n, r, []), c, n, r)
  {
  }

  /** So the highest revision prevails: every store that hears of it, directly or through others, ends with
      the owner's descriptor of exactly that revision. */
  lemma HighestPrevails(trust: Trust, c: Cluster, events: seq<Event>, h: History, n: Node, top: nat, i: Store)
    requires Coherent(h) && RemovalPermanent(h, n) && (forall i :: i in c.stores ==> n in trust(i))
    requires AllGenuine(h, n, top, c) && Owned(h, n, top, events) && Run(trust, c, events).Some?
    requires i in Heard(trust, c, n, top, events).stores
    ensures var d := Run(trust, c, events).value;
            i in d.stores && n in d.stores[i] && d.stores[i][n] == h(n, top)
  {
    hide Run, Heard, Coherent, RemovalPermanent;
    WordHolds(trust, c, events, h, n, top, top);
    var d := Run(trust, c, events).value;
    assert GenuineRecord(h, n, top, d.stores[i]);
  }
}
