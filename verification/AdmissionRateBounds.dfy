/**
 What the limiter guarantees over every run of attempts and slot drops. The clock is read before the
 lock is taken, so readings may reach the limiter out of order: `lag` bounds how far a reading falls
 behind the highest one before it. Pending accounting is exact whatever the lag; with a lag below one
 window, any interval of one window less the lag admits at most twice the limit.
 */
module AdmissionRateBounds {
  import opened Wrappers
  import opened Collections
  import opened AdmissionRate

  /** `live` are the slots not yet dropped, `log` every admission so far with its reading, `clock` the
      highest reading so far. */
  datatype History = History(limiter: Limiter, live: multiset<Source>, log: seq<(Instant, Source)>, clock: Instant)

  datatype Event = Attempt(source: Source, now: Instant) | Release(source: Source)

  function Later(a: Instant, b: Instant): Instant
  {
    if a < b then b else a
  }

  function Next(lag: nat, h: History, e: Event): Option<History>
  {
    match e
    case Attempt(source, now) =>
      if now + lag < h.clock then None
      else
        var (limiter, verdict) := Begin(h.limiter, source, now);
        var clock := Later(h.clock, now);
        Some(if verdict.Admitted?
             then History(limiter, h.live + multiset{source}, h.log + [(now, source)], clock)
             else h.(limiter := limiter, clock := clock))
    case Release(source) =>
      if source !in h.live then None
      else Some(h.(limiter := Drop(h.limiter, source), live := h.live - multiset{source}))
  }

  function Run(lag: nat, start: Instant, events: seq<Event>): Option<History>
  {
    if events == [] then Some(History(NewLimiter(start), multiset{}, [], start)) else
    var before := Run(lag, start, events[..|events| - 1]);
    if before.None? then None else Next(lag, before.value, events[|events| - 1])
  }

  /** Whose admissions are counted: everyone's, or one source's. */
  datatype Who = Everyone | Only(source: Source)

  predicate Counts(who: Who, source: Source)
  {
    who.Everyone? || who.source == source
  }

  /** How many admissions have a reading of at least `since`. */
  function CountFrom(log: seq<(Instant, Source)>, who: Who, since: int): nat
  {
    if log == [] then 0 else
    var last := log[|log| - 1];
    CountFrom(log[..|log| - 1], who, since) + if Counts(who, last.1) && last.0 >= since then 1 else 0
  }

  /** How many admissions have a reading in the half-open interval of one window less the lag from `t`. */
  function CountWindow(lag: nat, log: seq<(Instant, Source)>, who: Who, t: int): int
  {
    CountFrom(log, who, t) - CountFrom(log, who, t + WINDOW - lag)
  }

  lemma {:induction false} CountFromAntitone(log: seq<(Instant, Source)>, who: Who, a: int, b: int)
    requires a <= b
    ensures CountFrom(log, who, b) <= CountFrom(log, who, a)
  {
    if log != [] {
      CountFromAntitone(log[..|log| - 1], who, a, b);
    }
  }

  lemma CountFromAppend(log: seq<(Instant, Source)>, now: Instant, source: Source, who: Who, since: int)
    ensures CountFrom(log + [(now, source)], who, since) ==
            CountFrom(log, who, since) + if Counts(who, source) && now >= since then 1 else 0
  {
    assert (log + [(now, source)])[..|log|] == log;
  }

  /** How a window stands to the admissions it limits: those read since its start are its own, and those
      read up to one window before are its own and its predecessor's. */
  ghost predicate WindowOk(log: seq<(Instant, Source)>, who: Who, w: RateWindow, clock: Instant)
  {
    && w.start <= clock && w.count <= w.limit
    && CountFrom(log, who, w.start) <= w.count
    && CountFrom(log, who, w.start - WINDOW) <= w.limit + w.count
    && CountFrom(log, who, w.start + WINDOW) == 0
  }

  ghost predicate RateOk(lag: nat, log: seq<(Instant, Source)>, who: Who, limit: nat)
  {
    forall t: int :: CountWindow(lag, log, who, t) <= 2 * limit
  }

  /** Recording an attempt that is not (or not yet) admitted keeps the window in order. */
  lemma RecordKeeps(log: seq<(Instant, Source)>, who: Who, w: RateWindow, clock: Instant, now: Instant)
    requires WindowOk(log, who, w, clock) && now <= clock && w.limit >= 1
    ensures WindowOk(log, who, Recorded(w, now), clock)
  {
    if now >= w.start + WINDOW {
      CountFromAntitone(log, who, w.start + WINDOW, now);
      CountFromAntitone(log, who, w.start + WINDOW, now + WINDOW);
      CountFromAntitone(log, who, w.start, now - WINDOW);
    }
  }

  /** An admission counts in its window, so the window stays in order with it. */
  lemma AdmitKeepsWindow(
    log: seq<(Instant, Source)>, who: Who, w: RateWindow, clock: Instant, now: Instant, source: Source)
    requires WindowOk(log, who, w, clock) && now <= clock && w.limit >= 1 && !Saturated(w, now)
    ensures WindowOk(log + [(now, source)], who, Recorded(w, now), clock)
  {
    var w' := Recorded(w, now);
    CountFromAppend(log, now, source, who, w'.start);
    CountFromAppend(log, now, source, who, w'.start - WINDOW);
    CountFromAppend(log, now, source, who, w'.start + WINDOW);
    if now >= w.start + WINDOW {
      CountFromAntitone(log, who, w.start + WINDOW, now);
      CountFromAntitone(log, who, w.start + WINDOW, now + WINDOW);
      CountFromAntitone(log, who, w.start, now - WINDOW);
    }
  }

  /** And with it the bound on every interval. An interval that holds the new reading starts less than a
      window before the current one, because the reading lags behind the window's start by at most `lag`. */
  lemma AdmitKeeps(
    lag: nat, log: seq<(Instant, Source)>, who: Who, w: RateWindow, clock: Instant, now: Instant, source: Source)
    requires WindowOk(log, who, w, clock) && now <= clock <= now + lag && w.limit >= 1
    requires RateOk(lag, log, who, w.limit) && Counts(who, source) && !Saturated(w, now)
    ensures WindowOk(log + [(now, source)], who, Recorded(w, now), clock)
    ensures RateOk(lag, log + [(now, source)], who, w.limit)
  {
    AdmitKeepsWindow(log, who, w, clock, now, source);
    var log', w' := log + [(now, source)], Recorded(w, now);
    hide CountFrom;
    forall t: int ensures CountWindow(lag, log', who, t) <= 2 * w.limit {
      CountFromAppend(log, now, source, who, t);
      CountFromAppend(log, now, source, who, t + WINDOW - lag);
      assert CountWindow(lag, log, who, t) <= 2 * w.limit;
      if t <= now < t + WINDOW - lag {
        CountFromAntitone(log', who, w'.start - WINDOW, t);
      }
    }
  }

  /** Admissions of other sources are invisible to a source. */
  lemma OtherSource(log: seq<(Instant, Source)>, now: Instant, source: Source, who: Who)
    requires !Counts(who, source)
    ensures forall since: int :: CountFrom(log + [(now, source)], who, since) == CountFrom(log, who, since)
  {
    forall since: int ensures CountFrom(log + [(now, source)], who, since) == CountFrom(log, who, since) {
      CountFromAppend(log, now, source, who, since);
    }
  }

  // ---- The invariant ----

  ghost predicate PendingOk(h: History)
  {
    && h.limiter.globalPending == |h.live| <= PENDING_GLOBAL
    && |h.limiter.sources| <= SOURCE_BUCKET_LIMIT
    && (forall s :: s in h.live ==> s in h.limiter.sources)
    && (forall s :: s in h.limiter.sources ==> h.limiter.sources[s].pending == h.live[s] <= PENDING_PER_SOURCE)
  }

  ghost predicate GlobalOk(lag: nat, h: History)
  {
    && h.limiter.globalWindow.limit == RATE_GLOBAL
    && WindowOk(h.log, Everyone, h.limiter.globalWindow, h.clock) && RateOk(lag, h.log, Everyone, RATE_GLOBAL)
  }

  /** A source with a bucket is limited by it; one without has not been admitted for the idle lifetime. */
  ghost predicate SourceOk(lag: nat, h: History, s: Source)
  {
    && RateOk(lag, h.log, Only(s), RATE_PER_SOURCE)
    && CountFrom(h.log, Only(s), h.clock + 1) == 0
    && if s in h.limiter.sources then
         var b := h.limiter.sources[s];
         && b.window.limit == RATE_PER_SOURCE && WindowOk(h.log, Only(s), b.window, h.clock)
         && b.lastSeen <= h.clock && CountFrom(h.log, Only(s), b.lastSeen + lag + 1) == 0
       else CountFrom(h.log, Only(s), h.clock - SOURCE_IDLE_LIFETIME + lag + 1) == 0
  }

  ghost predicate RatesOk(lag: nat, h: History)
  {
    GlobalOk(lag, h) && forall s: Source :: SourceOk(lag, h, s)
  }

  ghost predicate Inv(lag: nat, h: History)
  {
    PendingOk(h) && (lag < WINDOW ==> RatesOk(lag, h))
  }

  lemma NewInv(lag: nat, start: Instant)
    ensures Inv(lag, History(NewLimiter(start), multiset{}, [], start))
  {
  }

  // ---- Making room ----

  function Room(h: History, source: Source, now: Instant): History
  {
    h.(limiter := MakeRoom(h.limiter, source, now), clock := Later(h.clock, now))
  }

  /** A reading, and the eviction it may allow, keep everything in order. */
  lemma RoomKeeps(lag: nat, h: History, source: Source, now: Instant)
    requires Inv(lag, h)
    ensures Inv(lag, Room(h, source, now))
  {
    var h' := Room(h, source, now);
    hide SourceOk;
    assert h'.limiter.sources.Keys <= h.limiter.sources.Keys;
    SubsetSize(h'.limiter.sources.Keys, h.limiter.sources.Keys);
    if lag < WINDOW {
      forall s: Source ensures SourceOk(lag, h', s) {
        RoomKeepsSource(lag, h, source, now, s);
      }
    }
  }

  lemma RoomKeepsSource(lag: nat, h: History, source: Source, now: Instant, s: Source)
    requires SourceOk(lag, h, s)
    ensures SourceOk(lag, Room(h, source, now), s)
  {
    var clock := Later(h.clock, now);
    CountFromAntitone(h.log, Only(s), h.clock + 1, clock + 1);
    if s !in MakeRoom(h.limiter, source, now).sources {
      var known := s in h.limiter.sources;
      var idle := if known then h.limiter.sources[s].lastSeen else h.clock - SOURCE_IDLE_LIFETIME;
      CountFromAntitone(h.log, Only(s), idle + lag + 1, clock - SOURCE_IDLE_LIFETIME + lag + 1);
    }
  }

  /** The touched bucket of an attempting source is in order, whether it existed or not. */
  lemma TouchedOk(lag: nat, h: History, source: Source, now: Instant)
    requires SourceOk(lag, h, source) && lag < WINDOW && now <= h.clock <= now + lag
    ensures var b := Touched(h.limiter, source, now);
            && b.window.limit == RATE_PER_SOURCE && WindowOk(h.log, Only(source), b.window, h.clock)
            && b.lastSeen == now && CountFrom(h.log, Only(source), now + lag + 1) == 0
  {
    CountFromAntitone(h.log, Only(source), h.clock + 1, now + lag + 1);
    if source !in h.limiter.sources {
      var idle := h.clock - SOURCE_IDLE_LIFETIME + lag + 1;
      CountFromAntitone(h.log, Only(source), idle, now);
      CountFromAntitone(h.log, Only(source), idle, now - WINDOW);
      CountFromAntitone(h.log, Only(source), idle, now + WINDOW);
    }
  }

  // ---- The rest of an attempt ----

  function Refused(h: History, source: Source, now: Instant): History
  {
    var m := h.limiter;
    h.(limiter := m.(globalWindow := Recorded(m.globalWindow, now),
                     sources := m.sources[source := BeginSource(Touched(m, source, now), now).0]))
  }

  function Granted(h: History, source: Source, now: Instant): History
  {
    var m := h.limiter;
    var b := BeginSource(Touched(m, source, now), now).0;
    History(Limiter(m.sources[source := b], m.globalPending + 1, Recorded(m.globalWindow, now)),
            h.live + multiset{source}, h.log + [(now, source)], h.clock)
  }

  /** What is left of an attempt once room is made. */
  function Roomed(h: History, source: Source, now: Instant): History
  {
    var m := h.limiter;
    if source !in m.sources && |m.sources| >= SOURCE_BUCKET_LIMIT then h
    else if Saturated(m.globalWindow, now) || m.globalPending >= PENDING_GLOBAL
    then h.(limiter := m.(globalWindow := Recorded(m.globalWindow, now)))
    else if BeginSource(Touched(m, source, now), now).1.Admitted? then Granted(h, source, now)
    else Refused(h, source, now)
  }

  lemma AttemptIs(lag: nat, h: History, source: Source, now: Instant)
    requires h.clock <= now + lag
    ensures Next(lag, h, Attempt(source, now)) == Some(Roomed(Room(h, source, now), source, now))
  {
    hide MakeRoom, Recorded, Saturated, BeginSource;
  }

  lemma RecordedGlobal(lag: nat, h: History, now: Instant)
    requires RatesOk(lag, h) && now <= h.clock
    ensures RatesOk(lag, h.(limiter := h.limiter.(globalWindow := Recorded(h.limiter.globalWindow, now))))
  {
    RecordKeeps(h.log, Everyone, h.limiter.globalWindow, h.clock, now);
    var h' := h.(limiter := h.limiter.(globalWindow := Recorded(h.limiter.globalWindow, now)));
    hide RateOk, CountFrom, WindowOk;
    forall s: Source ensures SourceOk(lag, h', s) {
      assert SourceOk(lag, h, s);
    }
  }

  lemma RefusedKeeps(lag: nat, h: History, source: Source, now: Instant)
    requires RatesOk(lag, h) && lag < WINDOW && now <= h.clock <= now + lag
    requires !BeginSource(Touched(h.limiter, source, now), now).1.Admitted?
    ensures RatesOk(lag, Refused(h, source, now))
  {
    var h' := Refused(h, source, now);
    assert SourceOk(lag, h, source);
    RecordKeeps(h.log, Everyone, h.limiter.globalWindow, h.clock, now);
    TouchedOk(lag, h, source, now);
    RecordKeeps(h.log, Only(source), Touched(h.limiter, source, now).window, h.clock, now);
    hide RateOk, CountFrom, WindowOk;
    forall s: Source ensures SourceOk(lag, h', s) {
      assert SourceOk(lag, h, s);
    }
  }

  lemma GrantedGlobal(lag: nat, h: History, source: Source, now: Instant)
    requires GlobalOk(lag, h) && now <= h.clock <= now + lag && !Saturated(h.limiter.globalWindow, now)
    ensures GlobalOk(lag, Granted(h, source, now))
  {
    AdmitKeeps(lag, h.log, Everyone, h.limiter.globalWindow, h.clock, now, source);
    hide RateOk, CountFrom, WindowOk, Touched, BeginSource;
  }

  lemma GrantedSource(lag: nat, h: History, source: Source, now: Instant)
    requires SourceOk(lag, h, source) && lag < WINDOW && now <= h.clock <= now + lag
    requires BeginSource(Touched(h.limiter, source, now), now).1.Admitted?
    ensures SourceOk(lag, Granted(h, source, now), source)
  {
    var touched := Touched(h.limiter, source, now);
    TouchedOk(lag, h, source, now);
    AdmitKeeps(lag, h.log, Only(source), touched.window, h.clock, now, source);
    CountFromAppend(h.log, now, source, Only(source), h.clock + 1);
    CountFromAppend(h.log, now, source, Only(source), now + lag + 1);
    hide RateOk, CountFrom, WindowOk, Touched;
  }

  lemma GrantedKeeps(lag: nat, h: History, source: Source, now: Instant)
    requires RatesOk(lag, h) && lag < WINDOW && now <= h.clock <= now + lag
    requires !Saturated(h.limiter.globalWindow, now)
    requires BeginSource(Touched(h.limiter, source, now), now).1.Admitted?
    ensures RatesOk(lag, Granted(h, source, now))
  {
    var h' := Granted(h, source, now);
    hide GlobalOk, SourceOk, Saturated, BeginSource, Touched;
    GrantedGlobal(lag, h, source, now);
    forall s: Source ensures SourceOk(lag, h', s) {
      assert SourceOk(lag, h, s);
      if s != source {
        UnseenSource(lag, h, h', s, source, now);
      } else {
        GrantedSource(lag, h, source, now);
      }
    }
  }

  lemma UnseenSource(lag: nat, h: History, h': History, s: Source, source: Source, now: Instant)
    requires SourceOk(lag, h, s) && s != source && h'.clock == h.clock && h'.log == h.log + [(now, source)]
    requires s in h'.limiter.sources <==> s in h.limiter.sources
    requires s in h.limiter.sources ==> h'.limiter.sources[s] == h.limiter.sources[s]
    ensures SourceOk(lag, h', s)
  {
    OtherSource(h.log, now, source, Only(s));
    hide CountFrom;
    forall t: int ensures CountWindow(lag, h'.log, Only(s), t) <= 2 * RATE_PER_SOURCE {
      assert CountWindow(lag, h.log, Only(s), t) <= 2 * RATE_PER_SOURCE;
    }
  }

  /** The pending side of an attempt, which no clock enters. */
  lemma RoomedPending(h: History, source: Source, now: Instant)
    requires PendingOk(h)
    ensures PendingOk(Roomed(h, source, now))
  {
    hide Recorded, Saturated;
  }

  lemma RoomedKeeps(lag: nat, h: History, source: Source, now: Instant)
    requires Inv(lag, h) && now <= h.clock <= now + lag
    ensures Inv(lag, Roomed(h, source, now))
  {
    RoomedPending(h, source, now);
    hide PendingOk, RatesOk, Recorded, Saturated, BeginSource, Touched, Granted, Refused;
    var m := h.limiter;
    if lag < WINDOW && (source in m.sources || |m.sources| < SOURCE_BUCKET_LIMIT) {
      RecordedGlobal(lag, h, now);
      if !Saturated(m.globalWindow, now) && m.globalPending < PENDING_GLOBAL {
        if BeginSource(Touched(m, source, now), now).1.Admitted? {
          GrantedKeeps(lag, h, source, now);
        } else {
          RefusedKeeps(lag, h, source, now);
        }
      }
    }
  }

  lemma AttemptKeeps(lag: nat, h: History, source: Source, now: Instant)
    requires Inv(lag, h) && h.clock <= now + lag
    ensures Inv(lag, Next(lag, h, Attempt(source, now)).value)
  {
    hide Inv, Next, Roomed, MakeRoom;
    RoomKeeps(lag, h, source, now);
    RoomedKeeps(lag, Room(h, source, now), source, now);
    AttemptIs(lag, h, source, now);
  }

  /** Dropping a live slot decrements both counters exactly once; neither saturates. */
  lemma ReleaseKeeps(lag: nat, h: History, source: Source)
    requires Inv(lag, h) && source in h.live
    ensures Inv(lag, Next(lag, h, Release(source)).value)
    ensures source in h.limiter.sources && h.limiter.sources[source].pending > 0 && h.limiter.globalPending > 0
  {
    hide RateOk, CountFrom, WindowOk;
    var h' := Next(lag, h, Release(source)).value;
    if lag < WINDOW {
      forall s: Source ensures SourceOk(lag, h', s) {
        assert SourceOk(lag, h, s);
      }
    }
  }

  lemma StepKeeps(lag: nat, h: History, e: Event)
    requires Inv(lag, h) && Next(lag, h, e).Some?
    ensures Inv(lag, Next(lag, h, e).value)
  {
    hide Inv;
    match e
    case Attempt(source, now) => AttemptKeeps(lag, h, source, now);
    case Release(source) => ReleaseKeeps(lag, h, source);
  }

  lemma {:induction false} RunInv(lag: nat, start: Instant, events: seq<Event>)
    requires Run(lag, start, events).Some?
    ensures Inv(lag, Run(lag, start, events).value)
  {
    hide Inv, Next;
    if events == [] {
      NewInv(lag, start);
    } else {
      var front := events[..|events| - 1];
      RunInv(lag, start, front);
      StepKeeps(lag, Run(lag, start, front).value, events[|events| - 1]);
    }
  }

  // ---- The theorems ----

  /** In any half-open interval of 60 seconds less the lag at most twice the window limit is admitted:
      globally, and from one source, even across eviction and re-creation of its bucket. Readings that
      never decrease have lag zero, and the interval is then the full 60 seconds. */
  lemma RateBound(lag: nat, start: Instant, events: seq<Event>, t: int)
    requires lag < WINDOW && Run(lag, start, events).Some?
    ensures CountWindow(lag, Run(lag, start, events).value.log, Everyone, t) <= 2 * RATE_GLOBAL
    ensures forall s: Source :: CountWindow(lag, Run(lag, start, events).value.log, Only(s), t) <= 2 * RATE_PER_SOURCE
  {
    RunInv(lag, start, events);
    var h := Run(lag, start, events).value;
    hide Run, CountFrom, WindowOk;
    forall s: Source ensures CountWindow(lag, h.log, Only(s), t) <= 2 * RATE_PER_SOURCE {
      assert SourceOk(lag, h, s);
    }
  }

  ghost function TotalPending(sources: map<Source, Bucket>): nat
  {
    if sources == map[] then 0 else
    var s :| s in sources;
    sources[s].pending + TotalPending(sources - {s})
  }

  lemma {:induction false} TotalIsLive(sources: map<Source, Bucket>, live: multiset<Source>)
    requires forall s :: s in live ==> s in sources
    requires forall s :: s in sources ==> sources[s].pending == live[s]
    ensures TotalPending(sources) == |live|
    decreases |sources|
  {
    if sources == map[] {
      assert live == multiset{};
    } else {
      var s :| s in sources && TotalPending(sources) == sources[s].pending + TotalPending(sources - {s});
      TotalIsLive(sources - {s}, live[s := 0]);
    }
  }

  /** Pending accounting is exact in every reachable state, and bounded, whatever the lag. */
  lemma PendingExact(lag: nat, start: Instant, events: seq<Event>)
    requires Run(lag, start, events).Some?
    ensures var h := Run(lag, start, events).value;
            && h.limiter.globalPending == |h.live| == TotalPending(h.limiter.sources)
            && h.limiter.globalPending <= PENDING_GLOBAL && |h.limiter.sources| <= SOURCE_BUCKET_LIMIT
            && (forall s :: s in h.live ==> s in h.limiter.sources)
            && (forall s :: s in h.limiter.sources ==> h.limiter.sources[s].pending == h.live[s] <= PENDING_PER_SOURCE)
  {
    RunInv(lag, start, events);
    var h := Run(lag, start, events).value;
    hide Run, RatesOk;
    TotalIsLive(h.limiter.sources, h.live);
  }

  /** The saturating decrements of a drop never saturate. */
  lemma DropNeverSaturates(lag: nat, start: Instant, events: seq<Event>, source: Source)
    requires Run(lag, start, events).Some? && source in Run(lag, start, events).value.live
    ensures var l := Run(lag, start, events).value.limiter;
            && source in l.sources
            && Drop(l, source).globalPending + 1 == l.globalPending
            && Drop(l, source).sources[source].pending + 1 == l.sources[source].pending
  {
    RunInv(lag, start, events);
    hide Run;
    ReleaseKeeps(lag, Run(lag, start, events).value, source);
  }
}
