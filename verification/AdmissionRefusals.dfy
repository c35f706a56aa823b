/**
 Every refusal of the limiter is deserved. Over every run, with any clock readings, a refused attempt is
 explained by the history of the run: by the slots still live, by the attempts a window has already
 recorded, or by the other sources that fill the table. An attempt with no such explanation is admitted.
 */
module AdmissionRefusals {
  import opened Wrappers
  import opened Collections
  import opened AdmissionRate

  /** The limiter with its history: `live` are the slots not yet dropped, `tried` the readings of the
      attempts the global window recorded, `triedBy` those a source's window recorded, `seen` the last
      reading of each source that reached its bucket. */
  datatype Account = Account(
    limiter: Limiter,
    live: multiset<Source>,
    tried: seq<Instant>,
    triedBy: map<Source, seq<Instant>>,
    seen: map<Source, Instant>)

  datatype Event = Attempt(source: Source, now: Instant) | Release(source: Source)

  function TriedBy(a: Account, source: Source): seq<Instant>
  {
    if source in a.triedBy then a.triedBy[source] else []
  }

  /** An attempt is in the global record unless the table or the global rate refused it, reaches its bucket
      unless the pending total refused it too, and is in the source's record unless the source's rate did. */
  function Booked(a: Account, source: Source, now: Instant, verdict: Verdict): Account
  {
    match verdict
    case BucketsFull => a
    case GlobalRate => a
    case GlobalPending => a.(tried := a.tried + [now])
    case SourceRate => a.(tried := a.tried + [now], seen := a.seen[source := now])
    case SourcePending =>
      a.(tried := a.tried + [now], seen := a.seen[source := now],
         triedBy := a.triedBy[source := TriedBy(a, source) + [now]])
    case Admitted =>
      a.(tried := a.tried + [now], seen := a.seen[source := now],
         triedBy := a.triedBy[source := TriedBy(a, source) + [now]], live := a.live + multiset{source})
  }

  function Attempted(a: Account, source: Source, now: Instant): Account
  {
    var (limiter, verdict) := Begin(a.limiter, source, now);
    Booked(a, source, now, verdict).(limiter := limiter)
  }

  function Next(a: Account, e: Event): Option<Account>
  {
    match e
    case Attempt(source, now) => Some(Attempted(a, source, now))
    case Release(source) =>
      if source !in a.live then None
      else Some(a.(limiter := Drop(a.limiter, source), live := a.live - multiset{source}))
  }

  function Run(start: Instant, events: seq<Event>): Option<Account>
  {
    if events == [] then Some(Account(NewLimiter(start), multiset{}, [], map[], map[])) else
    var before := Run(start, events[..|events| - 1]);
    if before.None? then None else Next(before.value, events[|events| - 1])
  }

  // ---- Counting ----

  /** The last `count` attempts of a record are those since a window opened at `start`: with the first of
      them, or, for a window that was there from the beginning, at its birth with the first of all. */
  ghost predicate Since(record: seq<Instant>, count: nat, start: Instant, born: Option<Instant>)
  {
    && count <= |record|
    && ((count > 0 && record[|record| - count] == start) || (born == Some(start) && count == |record|))
    && (forall i :: |record| - count <= i < |record| ==> record[i] < start + WINDOW)
  }

  ghost predicate WindowCounts(record: seq<Instant>, w: RateWindow, limit: nat, born: Option<Instant>)
  {
    w.limit == limit && w.count <= limit && Since(record, w.count, w.start, born)
  }

  ghost predicate BucketCounts(a: Account, s: Source, b: Bucket)
  {
    && b.pending == a.live[s]
    && WindowCounts(TriedBy(a, s), b.window, RATE_PER_SOURCE, None)
    && s in a.seen && a.seen[s] == b.lastSeen
  }

  ghost predicate Accounted(a: Account, birth: Instant)
  {
    && a.limiter.globalPending == |a.live|
    && WindowCounts(a.tried, a.limiter.globalWindow, RATE_GLOBAL, Some(birth))
    && (forall s :: s in a.live ==> s in a.limiter.sources)
    && (forall s :: s in a.limiter.sources ==> BucketCounts(a, s, a.limiter.sources[s]))
  }

  /** Recording an attempt that a window does not refuse counts it. */
  lemma RecordCounts(record: seq<Instant>, w: RateWindow, now: Instant, limit: nat, born: Option<Instant>)
    requires limit >= 1 && !Saturated(w, now)
    requires WindowCounts(record, w, limit, born) || w == RateWindow(now, 0, limit)
    ensures WindowCounts(record + [now], Recorded(w, now), limit, born)
  {
    var r := record + [now];
    assert r[|r| - 1] == now;
    if WindowCounts(record, w, limit, born) && now < w.start + WINDOW {
      assert forall i :: |record| - w.count <= i < |record| ==> r[i] == record[i];
    }
  }

  /** A window refuses only while it lasts, and is left as it was. */
  lemma SaturatedStays(w: RateWindow, now: Instant)
    requires Saturated(w, now) && w.limit >= 1
    ensures Recorded(w, now) == w && now < w.start + WINDOW && w.count >= w.limit
  {
  }

  // ---- Every step ----

  lemma RoomCounts(a: Account, birth: Instant, source: Source, now: Instant)
    requires Accounted(a, birth)
    ensures Accounted(a.(limiter := MakeRoom(a.limiter, source, now)), birth)
  {
    hide WindowCounts;
    var b := a.(limiter := MakeRoom(a.limiter, source, now));
    forall s | s in a.live ensures s in b.limiter.sources {
      assert BucketCounts(a, s, a.limiter.sources[s]);
    }
    forall s | s in b.limiter.sources ensures BucketCounts(b, s, b.limiter.sources[s]) {
      assert BucketCounts(a, s, a.limiter.sources[s]);
    }
  }

  /** The bucket an attempt finds or creates. */
  ghost predicate TouchedCounts(a: Account, source: Source, now: Instant, b: Bucket)
  {
    && b.pending == a.live[source] && b.lastSeen == now
    && (WindowCounts(TriedBy(a, source), b.window, RATE_PER_SOURCE, None) ||
        b.window == RateWindow(now, 0, RATE_PER_SOURCE))
  }

  lemma TouchCounts(a: Account, birth: Instant, source: Source, now: Instant)
    requires Accounted(a, birth)
    ensures TouchedCounts(a, source, now, Touched(a.limiter, source, now))
  {
    hide WindowCounts;
    if source in a.limiter.sources {
      assert BucketCounts(a, source, a.limiter.sources[source]);
    }
  }

  /** An attempt that reached its bucket leaves it in order. */
  lemma BucketStep(a: Account, source: Source, now: Instant, b: Bucket)
    requires TouchedCounts(a, source, now, b)
    ensures var (after, verdict) := BeginSource(b, now);
            && after.lastSeen == now
            && after.pending == a.live[source] + (if verdict.Admitted? then 1 else 0)
            && WindowCounts(
                 TriedBy(a, source) + (if verdict.SourceRate? then [] else [now]), after.window, RATE_PER_SOURCE, None)
  {
    var record := TriedBy(a, source);
    if Saturated(b.window, now) {
      SaturatedStays(b.window, now);
      assert record + [] == record;
    } else {
      RecordCounts(record, b.window, now, RATE_PER_SOURCE, None);
    }
    hide WindowCounts, Recorded;
  }

  lemma GlobalStep(a: Account, birth: Instant, now: Instant)
    requires Accounted(a, birth) && !Saturated(a.limiter.globalWindow, now)
    ensures Accounted(a.(tried := a.tried + [now],
                         limiter := a.limiter.(globalWindow := Recorded(a.limiter.globalWindow, now))), birth)
  {
    RecordCounts(a.tried, a.limiter.globalWindow, now, RATE_GLOBAL, Some(birth));
    var b := a.(tried := a.tried + [now],
                limiter := a.limiter.(globalWindow := Recorded(a.limiter.globalWindow, now)));
    hide WindowCounts, Recorded;
    forall s | s in b.limiter.sources ensures BucketCounts(b, s, b.limiter.sources[s]) {
      assert BucketCounts(a, s, a.limiter.sources[s]);
    }
  }

  /** The account after an attempt reached its bucket. */
  function Reached(a: Account, source: Source, now: Instant): Account
  {
    var (bucket, verdict) := BeginSource(Touched(a.limiter, source, now), now);
    var pending := a.limiter.globalPending + if verdict.Admitted? then 1 else 0;
    var limiter := a.limiter.(sources := a.limiter.sources[source := bucket], globalPending := pending);
    a.(limiter := limiter, seen := a.seen[source := now],
       triedBy := if verdict.SourceRate? then a.triedBy else a.triedBy[source := TriedBy(a, source) + [now]],
       live := if verdict.Admitted? then a.live + multiset{source} else a.live)
  }

  lemma ReachedCounts(a: Account, birth: Instant, source: Source, now: Instant)
    requires Accounted(a, birth)
    ensures Accounted(Reached(a, source, now), birth)
  {
    ReachedBucket(a, birth, source, now);
    SourceVerdicts(Touched(a.limiter, source, now), now);
    BeginPending(Touched(a.limiter, source, now), now);
    hide WindowCounts, BeginSource, Touched, BucketCounts;
    var b := Reached(a, source, now);
    forall s | s in b.limiter.sources && s != source ensures BucketCounts(b, s, b.limiter.sources[s]) {
      assert BucketCounts(a, s, a.limiter.sources[s]);
      SeenStays(a, s);
      OtherBucket(a, b, s, source);
    }
  }

  lemma SeenStays(a: Account, s: Source)
    requires s in a.limiter.sources && BucketCounts(a, s, a.limiter.sources[s])
    ensures s in a.seen
  {
  }

  lemma BeginPending(b: Bucket, now: Instant)
    ensures var (after, verdict) := BeginSource(b, now);
            after.pending == b.pending + if verdict.Admitted? then 1 else 0
  {
  }

  lemma ReachedBucket(a: Account, birth: Instant, source: Source, now: Instant)
    requires Accounted(a, birth)
    ensures var b := Reached(a, source, now);
            source in b.limiter.sources && BucketCounts(b, source, b.limiter.sources[source])
  {
    TouchCounts(a, birth, source, now);
    BucketStep(a, source, now, Touched(a.limiter, source, now));
    SourceVerdicts(Touched(a.limiter, source, now), now);
    assert TriedBy(a, source) + [] == TriedBy(a, source);
    hide WindowCounts, BeginSource, Touched, Accounted;
  }

  lemma OtherBucket(a: Account, b: Account, s: Source, source: Source)
    requires s != source && s in a.limiter.sources && BucketCounts(a, s, a.limiter.sources[s])
    requires s in b.limiter.sources && b.limiter.sources[s] == a.limiter.sources[s]
    requires b.live[s] == a.live[s] && TriedBy(b, s) == TriedBy(a, s) && s in b.seen && b.seen[s] == a.seen[s]
    ensures BucketCounts(b, s, b.limiter.sources[s])
  {
  }

  /** What is left of an attempt once room is made. */
  function Roomed(a: Account, source: Source, now: Instant): Account
  {
    var m := a.limiter;
    var n := m.(globalWindow := Recorded(m.globalWindow, now));
    if source !in m.sources && |m.sources| >= SOURCE_BUCKET_LIMIT then a
    else if Saturated(m.globalWindow, now) then a.(limiter := n)
    else if m.globalPending >= PENDING_GLOBAL then a.(limiter := n, tried := a.tried + [now])
    else Reached(a.(limiter := n, tried := a.tried + [now]), source, now)
  }

  lemma RoomedCounts(a: Account, birth: Instant, source: Source, now: Instant)
    requires Accounted(a, birth)
    ensures Accounted(Roomed(a, source, now), birth)
  {
    var m := a.limiter;
    if Saturated(m.globalWindow, now) {
      SaturatedStays(m.globalWindow, now);
      assert a.(limiter := m.(globalWindow := Recorded(m.globalWindow, now))) == a;
    } else {
      GlobalStep(a, birth, now);
      var b := a.(tried := a.tried + [now], limiter := m.(globalWindow := Recorded(m.globalWindow, now)));
      ReachedCounts(b, birth, source, now);
    }
    hide Accounted, Reached, Recorded, Saturated;
  }

  lemma AttemptIs(a: Account, source: Source, now: Instant)
    ensures Attempted(a, source, now) == Roomed(a.(limiter := MakeRoom(a.limiter, source, now)), source, now)
  {
    var m := MakeRoom(a.limiter, source, now);
    var (limiter, verdict) := BeginRoomed(m, source, now);
    RoomedIs(a.(limiter := m), source, now);
    BookedAnywhere(a, m, source, now, limiter, verdict);
    hide MakeRoom, BeginRoomed, Booked, Roomed;
  }

  lemma BookedAnywhere(a: Account, m: Limiter, source: Source, now: Instant, limiter: Limiter, verdict: Verdict)
    ensures Booked(a, source, now, verdict).(limiter := limiter) ==
            Booked(a.(limiter := m), source, now, verdict).(limiter := limiter)
  {
  }

  /** The same, for a limiter with room. */
  function AttemptedRoomed(a: Account, source: Source, now: Instant): Account
  {
    var (limiter, verdict) := BeginRoomed(a.limiter, source, now);
    Booked(a, source, now, verdict).(limiter := limiter)
  }

  lemma RoomedIs(a: Account, source: Source, now: Instant)
    ensures AttemptedRoomed(a, source, now) == Roomed(a, source, now)
  {
    var m := a.limiter;
    var n := m.(globalWindow := Recorded(m.globalWindow, now));
    assert Touched(n, source, now) == Touched(m, source, now);
    SourceVerdicts(Touched(m, source, now), now);
    hide Recorded, Saturated, BeginSource, Touched;
  }

  lemma SourceVerdicts(b: Bucket, now: Instant)
    ensures var verdict := BeginSource(b, now).1;
            verdict.SourceRate? || verdict.SourcePending? || verdict.Admitted?
  {
  }

  lemma DropCounts(a: Account, birth: Instant, source: Source)
    requires Accounted(a, birth) && source in a.live
    ensures Accounted(Next(a, Release(source)).value, birth)
  {
    assert BucketCounts(a, source, a.limiter.sources[source]);
    hide WindowCounts;
    var b := Next(a, Release(source)).value;
    forall s | s in b.limiter.sources ensures BucketCounts(b, s, b.limiter.sources[s]) {
      assert BucketCounts(a, s, a.limiter.sources[s]);
    }
  }

  lemma {:induction false} RunCounts(birth: Instant, events: seq<Event>)
    requires Run(birth, events).Some?
    ensures Accounted(Run(birth, events).value, birth)
  {
    hide Attempted, Roomed, MakeRoom;
    if events != [] {
      hide Accounted;
      var front, e := events[..|events| - 1], events[|events| - 1];
      RunCounts(birth, front);
      var a := Run(birth, front).value;
      match e
      case Attempt(source, now) =>
        RoomCounts(a, birth, source, now);
        RoomedCounts(a.(limiter := MakeRoom(a.limiter, source, now)), birth, source, now);
        AttemptIs(a, source, now);
      case Release(source) => DropCounts(a, birth, source);
    }
  }

  // ---- What explains a refusal ----

  /** `limit` attempts were recorded since a window opened less than its length before `now`. */
  ghost predicate RateReached(record: seq<Instant>, limit: nat, born: Option<Instant>, now: Instant)
  {
    exists start: Instant :: Since(record, limit, start, born) && now < start + WINDOW
  }

  /** As many other sources as the table holds, each with a live slot or seen within the idle lifetime. */
  ghost predicate BusyOthers(a: Account, source: Source, now: Instant, others: set<Source>)
  {
    && |others| >= SOURCE_BUCKET_LIMIT && source !in others
    && forall s :: s in others ==> s in a.live || (s in a.seen && now < a.seen[s] + SOURCE_IDLE_LIFETIME)
  }

  ghost predicate TableBusy(a: Account, source: Source, now: Instant)
  {
    exists others: set<Source> :: BusyOthers(a, source, now, others)
  }

  ghost predicate Explained(a: Account, birth: Instant, source: Source, now: Instant, verdict: Verdict)
  {
    match verdict
    case BucketsFull => TableBusy(a, source, now)
    case GlobalRate => RateReached(a.tried, RATE_GLOBAL, Some(birth), now)
    case GlobalPending => |a.live| >= PENDING_GLOBAL
    case SourceRate => RateReached(TriedBy(a, source), RATE_PER_SOURCE, None, now)
    case SourcePending => a.live[source] >= PENDING_PER_SOURCE
    case Admitted => true
  }

  lemma BusyTable(a: Account, birth: Instant, source: Source, now: Instant)
    requires Accounted(a, birth)
    requires var m := MakeRoom(a.limiter, source, now); source !in m.sources && |m.sources| >= SOURCE_BUCKET_LIMIT
    ensures TableBusy(a, source, now)
  {
    var m := MakeRoom(a.limiter, source, now);
    assert a.limiter.sources.Keys >= m.sources.Keys;
    SubsetSize(m.sources.Keys, a.limiter.sources.Keys);
    hide WindowCounts;
    forall s | s in m.sources.Keys
      ensures s in a.live || (s in a.seen && now < a.seen[s] + SOURCE_IDLE_LIFETIME)
    {
      assert BucketCounts(a, s, a.limiter.sources[s]) && !Idle(a.limiter.sources[s], now);
    }
    assert |m.sources.Keys| == |m.sources|;
    assert BusyOthers(a, source, now, m.sources.Keys);
  }

  lemma RateExplained(record: seq<Instant>, w: RateWindow, limit: nat, born: Option<Instant>, now: Instant)
    requires WindowCounts(record, w, limit, born) && limit >= 1 && Saturated(w, now)
    ensures RateReached(record, limit, born, now)
  {
    SaturatedStays(w, now);
    assert Since(record, limit, w.start, born);
  }

  lemma SourceExplained(a: Account, birth: Instant, source: Source, now: Instant)
    requires Accounted(a, birth)
    ensures Explained(a, birth, source, now, BeginSource(Touched(a.limiter, source, now), now).1)
  {
    TouchCounts(a, birth, source, now);
    var b := Touched(a.limiter, source, now);
    if Saturated(b.window, now) {
      assert b.window != RateWindow(now, 0, RATE_PER_SOURCE);
      RateExplained(TriedBy(a, source), b.window, RATE_PER_SOURCE, None, now);
    }
    hide RateReached, TableBusy, WindowCounts, Touched;
  }

  /** The refusals past the table, at a limiter with room. */
  lemma RoomedExplained(a: Account, birth: Instant, source: Source, now: Instant)
    requires Accounted(a, birth) && (source in a.limiter.sources || |a.limiter.sources| < SOURCE_BUCKET_LIMIT)
    ensures Explained(a, birth, source, now, BeginRoomed(a.limiter, source, now).1)
  {
    if Saturated(a.limiter.globalWindow, now) {
      RateExplained(a.tried, a.limiter.globalWindow, RATE_GLOBAL, Some(birth), now);
    }
    SourceExplained(a, birth, source, now);
    hide RateReached, TableBusy, WindowCounts, Touched, BeginSource, Saturated, Recorded;
  }

  lemma VerdictExplained(a: Account, birth: Instant, source: Source, now: Instant)
    requires Accounted(a, birth)
    ensures Explained(a, birth, source, now, Begin(a.limiter, source, now).1)
  {
    var m := MakeRoom(a.limiter, source, now);
    var r := a.(limiter := m);
    RoomCounts(a, birth, source, now);
    if source !in m.sources && |m.sources| >= SOURCE_BUCKET_LIMIT {
      BusyTable(a, birth, source, now);
      hide MakeRoom, TableBusy, Accounted;
    } else {
      RoomedExplained(r, birth, source, now);
      SameExplanation(a, r, birth, source, now, BeginRoomed(m, source, now).1);
      hide MakeRoom, BeginRoomed, Explained, Accounted;
    }
  }

  lemma SameExplanation(a: Account, r: Account, birth: Instant, source: Source, now: Instant, verdict: Verdict)
    requires Explained(r, birth, source, now, verdict) && r == a.(limiter := r.limiter)
    ensures Explained(a, birth, source, now, verdict)
  {
    if verdict.BucketsFull? {
      var others: set<Source> :| BusyOthers(r, source, now, others);
      assert BusyOthers(a, source, now, others);
    }
  }

  /** Nothing in the history speaks against the attempt. */
  ghost predicate Faultless(a: Account, birth: Instant, source: Source, now: Instant)
  {
    && !TableBusy(a, source, now) && !RateReached(a.tried, RATE_GLOBAL, Some(birth), now)
    && |a.live| < PENDING_GLOBAL && !RateReached(TriedBy(a, source), RATE_PER_SOURCE, None, now)
    && a.live[source] < PENDING_PER_SOURCE
  }

  /** Every refusal is deserved, and an attempt that deserves none is admitted. */
  lemma RefusalsDeserved(birth: Instant, events: seq<Event>, source: Source, now: Instant)
    requires Run(birth, events).Some?
    ensures var a := Run(birth, events).value;
            && Explained(a, birth, source, now, Begin(a.limiter, source, now).1)
            && (Faultless(a, birth, source, now) ==> Begin(a.limiter, source, now).1 == Admitted)
  {
    RunCounts(birth, events);
    hide Run, Begin, Accounted, TableBusy, RateReached;
    VerdictExplained(Run(birth, events).value, birth, source, now);
  }
}
