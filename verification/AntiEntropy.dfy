/**
 The anti-entropy exchange: one node emits its whole descriptor store page by page, the other applies
 every page, each commit with its own outcome. Two exchanges that land, one each way, leave both stores
 with the same record.
 */
module AntiEntropy {
  import opened Wrappers
  import opened Arithmetic
  import opened Descriptors
  import opened Paging

  const MAX_PAGE_DESCRIPTORS: nat := 64

  type Decode = Entry -> Option<Descriptor>

  /** Emission keeps every entry and stops at one that does not decode. */
  function Chooser(decode: Decode): Select<Descriptor>
  {
    (e: Entry) => if decode(e).Some? then Keep(decode(e).value) else Fail
  }

  predicate Decodes(scan: seq<Entry>, decode: Decode)
  {
    forall i :: 0 <= i < |scan| ==> decode(scan[i]).Some?
  }

  function Emitted(scan: seq<Entry>, decode: Decode, limit: nat): Result<seq<Paged<Descriptor>>, Failure>
    requires Sorted(scan)
  {
    Follow(scan, None, Clamp(limit, 1, MAX_PAGE_DESCRIPTORS), Chooser(decode))
  }

  /** The bounds a membership page is checked against, by its sender and by its receiver. */
  predicate PageShape(page: Paged<Descriptor>)
  {
    |page.items| <= MAX_PAGE_DESCRIPTORS && !(page.items == [] && page.next.Some?)
  }

  /** Emission fails exactly on a record that does not decode, never on its own page checks, and then
      holds every record, in order. */
  lemma EmittedPagesFit(scan: seq<Entry>, decode: Decode, limit: nat)
    requires Sorted(scan)
    ensures var r := Emitted(scan, decode, limit);
            && (r.Ok? <==> Decodes(scan, decode))
            && (r.Ok? ==> forall i :: 0 <= i < |r.value| ==> PageShape(r.value[i]))
            && (r.Ok? ==> Items(r.value) == Decoded(scan, decode))
  {
    var select := Chooser(decode);
    ChooserKeeps(scan, decode);
    hide Follow, Items, Selected, Sorted, NoFailure, Decodes, Decoded, Chooser;
    FollowCollects(scan, Clamp(limit, 1, MAX_PAGE_DESCRIPTORS), select);
  }

  lemma ChooserKeeps(scan: seq<Entry>, decode: Decode)
    ensures NoFailure(scan, Chooser(decode)) <==> Decodes(scan, decode)
    ensures Decodes(scan, decode) ==> Selected(scan, Chooser(decode)) == Decoded(scan, decode)
  {
    var select := Chooser(decode);
    assert forall i :: 0 <= i < |scan| ==> (select(scan[i]).Fail? <==> decode(scan[i]).None?);
    if Decodes(scan, decode) {
      KeepsAll(scan, select);
      assert Selected(scan, select) == Decoded(scan, decode);
    }
  }

  function Decoded(scan: seq<Entry>, decode: Decode): (ds: seq<Descriptor>)
    requires Decodes(scan, decode)
    ensures |ds| == |scan| && forall i :: 0 <= i < |scan| ==> ds[i] == decode(scan[i]).value
  {
    seq(|scan|, i requires 0 <= i < |scan| => decode(scan[i]).value)
  }

  // ---- The receiver ----

  /** How the commit of each node's record fares in one exchange. */
  type Outcomes = Node -> Outcome

  function Deliveries(ds: seq<Descriptor>, outcomes: Outcomes): (xs: seq<Delivery>)
    ensures |xs| == |ds| && forall i :: 0 <= i < |ds| ==> xs[i] == Delivery(ds[i], outcomes(ds[i].node))
  {
    seq(|ds|, i requires 0 <= i < |ds| => Delivery(ds[i], outcomes(ds[i].node)))
  }

  /** The receiver applies the pages in turn. */
  function ApplyPages(records: Records, trusted: set<Node>, pages: seq<Paged<Descriptor>>, outcomes: Outcomes): Records
    decreases |pages|
  {
    if pages == [] then records
    else ApplyPages(Run(records, trusted, Deliveries(pages[0].items, outcomes)), trusted, pages[1..], outcomes)
  }

  lemma DeliveriesSplit(ds: seq<Descriptor>, others: seq<Descriptor>, outcomes: Outcomes)
    ensures Deliveries(ds + others, outcomes) == Deliveries(ds, outcomes) + Deliveries(others, outcomes)
  {
  }

  lemma {:induction false} PagesAreOneRun(
    records: Records, trusted: set<Node>, pages: seq<Paged<Descriptor>>, outcomes: Outcomes)
    ensures ApplyPages(records, trusted, pages, outcomes) == Run(records, trusted, Deliveries(Items(pages), outcomes))
    decreases |pages|
  {
    hide Run, Deliveries;
    if pages == [] {
      NothingDelivered(records, trusted, outcomes);
    } else {
      var first, others := pages[0].items, Items(pages[1..]);
      PagesAreOneRun(Run(records, trusted, Deliveries(first, outcomes)), trusted, pages[1..], outcomes);
      RunSplit(records, trusted, Deliveries(first, outcomes), Deliveries(others, outcomes));
      DeliveriesSplit(first, others, outcomes);
    }
  }

  lemma NothingDelivered(records: Records, trusted: set<Node>, outcomes: Outcomes)
    ensures Run(records, trusted, Deliveries([], outcomes)) == records
  {
  }

  /** The records a receiver has after taking every page of a sender's store. */
  function Exchange(
    scan: seq<Entry>, decode: Decode, limit: nat, records: Records, trusted: set<Node>, outcomes: Outcomes): Records
    requires Sorted(scan)
  {
    var pages := Emitted(scan, decode, limit);
    if pages.Ok? then ApplyPages(records, trusted, pages.value, outcomes) else records
  }

  // ---- What an exchange achieves ----

  /** The scan of a descriptor store: ordered, one decodable entry per record. */
  ghost predicate Stores(scan: seq<Entry>, decode: Decode, records: Records)
  {
    && Sorted(scan) && Decodes(scan, decode)
    && (forall i :: 0 <= i < |scan| ==> Holds(records, decode(scan[i]).value))
    && (forall n :: n in records ==> exists i :: 0 <= i < |scan| && decode(scan[i]).value == records[n])
  }

  predicate Holds(records: Records, d: Descriptor)
  {
    d.node in records && records[d.node] == d
  }

  ghost predicate Follows(records: Records, h: History, n: Node)
  {
    n in records ==> records[n] == h(n, records[n].revision)
  }

  ghost predicate SameRecord(a: Records, b: Records, n: Node)
  {
    (n in a <==> n in b) && (n in a ==> a[n] == b[n])
  }

  /** The later of two records of a node. */
  ghost predicate IsJoin(joined: Records, a: Records, b: Records, n: Node)
  {
    if n in a && (n in b ==> a[n].revision > b[n].revision) then SameRecord(joined, a, n) else SameRecord(joined, b, n)
  }

  /** One exchange leaves the receiver, for every trusted node, with the later of both records if the
      record's commit was applied, and with its own otherwise, whatever the page size. */
  lemma ExchangeJoins(
    scan: seq<Entry>, decode: Decode, limit: nat, sender: Records,
    receiver: Records, trusted: set<Node>, outcomes: Outcomes, h: History, n: Node)
    requires Stores(scan, decode, sender) && Keyed(sender)
    requires Coherent(h) && RemovalPermanent(h, n) && Follows(sender, h, n) && Follows(receiver, h, n)
    requires n in trusted
    ensures var after := Exchange(scan, decode, limit, receiver, trusted, outcomes);
            if outcomes(n).applied then IsJoin(after, sender, receiver, n) else SameRecord(after, receiver, n)
  {
    EmittedPagesFit(scan, decode, limit);
    var pages := Emitted(scan, decode, limit).value;
    PagesAreOneRun(receiver, trusted, pages, outcomes);
    var xs := Deliveries(Decoded(scan, decode), outcomes);
    SenderLands(scan, decode, sender, outcomes, xs, n);
    hide Emitted, Deliveries, Decoded, Run, Landed, Sorted, RemovalPermanent, ApplyPages, Stores, HoldsHighest, IsJoin;
    RunHoldsHighest(receiver, trusted, xs, n, h);
    HighestIsJoin(Run(receiver, trusted, xs), sender, receiver, outcomes(n).applied, h, n);
  }

  lemma HighestIsJoin(after: Records, sender: Records, receiver: Records, lands: bool, h: History, n: Node)
    requires Follows(sender, h, n) && Follows(receiver, h, n)
    requires HoldsHighest(after, h, n, HeldRevision(receiver, n) + if lands then HeldRevision(sender, n) else {})
    ensures if lands then IsJoin(after, sender, receiver, n) else SameRecord(after, receiver, n)
  {
    assert n in sender && lands ==> n in after && after[n].revision >= sender[n].revision;
    assert n in receiver ==> n in after && after[n].revision >= receiver[n].revision;
  }

  lemma SenderLands(
    scan: seq<Entry>, decode: Decode, sender: Records, outcomes: Outcomes, xs: seq<Delivery>, n: Node)
    requires Stores(scan, decode, sender) && Keyed(sender)
    requires xs == Deliveries(Decoded(scan, decode), outcomes)
    ensures Landed(xs, n) == if outcomes(n).applied then HeldRevision(sender, n) else {}
    ensures forall i :: 0 <= i < |xs| && xs[i].descriptor.node == n ==> n in sender && xs[i].descriptor == sender[n]
  {
    hide Sorted;
    forall i | 0 <= i < |xs|
      ensures Holds(sender, xs[i].descriptor) && xs[i].outcome == outcomes(xs[i].descriptor.node)
    {
      assert xs[i].descriptor == decode(scan[i]).value;
    }
    if n in sender {
      var i :| 0 <= i < |scan| && decode(scan[i]).value == sender[n];
      assert xs[i].descriptor == sender[n] && xs[i].descriptor.node == n;
    }
  }

  /** An exchange each way that lands leaves both stores with the same record of a node both trust. */
  lemma TwoExchangesConverge(
    scanA: seq<Entry>, scanB: seq<Entry>, decode: Decode, limitA: nat, limitB: nat,
    a: Records, b: Records, trustedA: set<Node>, trustedB: set<Node>,
    outcomesA: Outcomes, outcomesB: Outcomes, h: History, n: Node)
    requires Stores(scanA, decode, a) && Keyed(a)
    requires Coherent(h) && RemovalPermanent(h, n) && Follows(a, h, n) && Follows(b, h, n)
    requires n in trustedA && n in trustedB && outcomesA(n).applied && outcomesB(n).applied
    requires var b' := Exchange(scanA, decode, limitA, b, trustedB, outcomesB);
             Stores(scanB, decode, b') && Keyed(b')
    ensures var b' := Exchange(scanA, decode, limitA, b, trustedB, outcomesB);
            var a' := Exchange(scanB, decode, limitB, a, trustedA, outcomesA);
            IsJoin(b', a, b, n) && SameRecord(a', b', n)
  {
    var b' := Exchange(scanA, decode, limitA, b, trustedB, outcomesB);
    ExchangeJoins(scanA, decode, limitA, a, b, trustedB, outcomesB, h, n);
    hide Exchange, Stores, Keyed;
    ExchangeJoins(scanB, decode, limitB, b', a, trustedA, outcomesA, h, n);
  }

  // ---- Pages of changing snapshots ----

  /** A store that holds a record of the node, whose entries are those under the node's key. */
  ghost predicate Keeping(scan: seq<Entry>, decode: Decode, records: Records, n: Node, key: Key)
  {
    && Stores(scan, decode, records) && Keyed(records) && n in records
    && forall k :: 0 <= k < |scan| ==> (decode(scan[k]).value.node == n <==> scan[k].key == key)
  }

  lemma RecordKept(scan: seq<Entry>, decode: Decode, records: Records, n: Node, key: Key)
    requires Keeping(scan, decode, records, n, key)
    ensures Keeps(scan, Chooser(decode), key)
  {
    hide Sorted;
    var k :| 0 <= k < |scan| && decode(scan[k]).value == records[n];
    assert scan[k].key == key && Chooser(decode)(scan[k]).Keep?;
  }

  lemma RecordShown(
    scan: seq<Entry>, decode: Decode, records: Records, page: Paged<Descriptor>, n: Node, key: Key)
    requires Keeping(scan, decode, records, n, key) && Shows(scan, page, Chooser(decode), key)
    ensures records[n] in page.items
  {
    hide Sorted;
    var select := Chooser(decode);
    var k :| 0 <= k < |scan| && scan[k].key == key && select(scan[k]).Keep? && select(scan[k]).item in page.items;
    assert Holds(records, decode(scan[k]).value);
  }

  /** The sender takes a new snapshot for every page. Even so, an exchange read to its end tells of every
      node the sender has throughout, with the record of the snapshot behind that page. */
  lemma ExchangeTellsAll(
    scans: seq<seq<Entry>>, decode: Decode, limit: nat, pages: seq<Paged<Descriptor>>,
    records: seq<Records>, n: Node, key: Key) returns (i: nat)
    requires ReadThrough(scans, pages, Clamp(limit, 1, MAX_PAGE_DESCRIPTORS), Chooser(decode))
    requires |records| == |scans|
    requires forall j :: 0 <= j < |scans| ==> Keeping(scans[j], decode, records[j], n, key)
    ensures i < |pages| && i < |records| && n in records[i] && records[i][n] in pages[i].items
  {
    var select := Chooser(decode);
    forall j | 0 <= j < |scans| ensures Keeps(scans[j], select, key) {
      assert Keeping(scans[j], decode, records[j], n, key);
      RecordKept(scans[j], decode, records[j], n, key);
    }
    i := ReadThroughShows(scans, pages, Clamp(limit, 1, MAX_PAGE_DESCRIPTORS), select, key);
    assert Keeping(scans[i], decode, records[i], n, key);
    RecordShown(scans[i], decode, records[i], pages[i], n, key);
  }
}
