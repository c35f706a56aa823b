/**
 The admission limiter: pending counters, fixed 60-second windows, and a bounded table of source
 buckets with idle eviction. The functions are the specification; the class updates the fields in
 place. Instants are nanoseconds of the monotonic clock.
 */
module AdmissionRate {
  const PENDING_PER_SOURCE: nat := 4
  const PENDING_GLOBAL: nat := 64
  const RATE_PER_SOURCE: nat := 16
  const RATE_GLOBAL: nat := 256
  const WINDOW: nat := 60_000_000_000
  const SOURCE_BUCKET_LIMIT: nat := 1024
  const SOURCE_IDLE_LIFETIME: nat := 600_000_000_000

  type Instant = nat
  type Source = nat

  datatype RateWindow = RateWindow(start: Instant, count: nat, limit: nat)

  /** The window an attempt at `now` falls into. */
  function Rolled(w: RateWindow, now: Instant): RateWindow
  {
    if now >= w.start + WINDOW then RateWindow(now, 0, w.limit) else w
  }

  predicate Saturated(w: RateWindow, now: Instant)
  {
    Rolled(w, now).count >= w.limit
  }

  /** The window after `record`, which leaves the roll in place even when it refuses. */
  function Recorded(w: RateWindow, now: Instant): RateWindow
  {
    var rolled := Rolled(w, now);
    if Saturated(w, now) then rolled else rolled.(count := rolled.count + 1)
  }

  datatype Bucket = Bucket(pending: nat, window: RateWindow, lastSeen: Instant)

  datatype Limiter = Limiter(sources: map<Source, Bucket>, globalPending: nat, globalWindow: RateWindow)

  datatype Verdict = Admitted | BucketsFull | GlobalRate | GlobalPending | SourceRate | SourcePending

  function NewLimiter(now: Instant): Limiter
  {
    Limiter(map[], 0, RateWindow(now, 0, RATE_GLOBAL))
  }

  predicate Idle(b: Bucket, now: Instant)
  {
    b.pending == 0 && now >= b.lastSeen + SOURCE_IDLE_LIFETIME
  }

  function EvictIdle(sources: map<Source, Bucket>, now: Instant): map<Source, Bucket>
  {
    map s | s in sources && !Idle(sources[s], now) :: sources[s]
  }

  /** The table `begin` works on: evicted first when it is full and the source is new. */
  function MakeRoom(l: Limiter, source: Source, now: Instant): Limiter
  {
    if source !in l.sources && |l.sources| >= SOURCE_BUCKET_LIMIT
    then l.(sources := EvictIdle(l.sources, now)) else l
  }

  /** The bucket of a source, touched at `now`; created when absent. */
  function Touched(l: Limiter, source: Source, now: Instant): Bucket
  {
    if source in l.sources then l.sources[source].(lastSeen := now)
    else Bucket(0, RateWindow(now, 0, RATE_PER_SOURCE), now)
  }

  /** The source's part of `begin`. */
  function BeginSource(b: Bucket, now: Instant): (Bucket, Verdict)
  {
    var recorded := b.(window := Recorded(b.window, now));
    if Saturated(b.window, now) then (recorded, SourceRate)
    else if b.pending >= PENDING_PER_SOURCE then (recorded, SourcePending)
    else (recorded.(pending := b.pending + 1), Admitted)
  }

  function Begin(l: Limiter, source: Source, now: Instant): (Limiter, Verdict)
  {
    BeginRoomed(MakeRoom(l, source, now), source, now)
  }

  /** `begin` once room is made. */
  function BeginRoomed(m: Limiter, source: Source, now: Instant): (Limiter, Verdict)
  {
    var window := Recorded(m.globalWindow, now);
    if source !in m.sources && |m.sources| >= SOURCE_BUCKET_LIMIT then (m, BucketsFull)
    else if Saturated(m.globalWindow, now) then (m.(globalWindow := window), GlobalRate)
    else if m.globalPending >= PENDING_GLOBAL then (m.(globalWindow := window), GlobalPending)
    else
      var (bucket, verdict) := BeginSource(Touched(m, source, now), now);
      var pending := if verdict.Admitted? then m.globalPending + 1 else m.globalPending;
      (Limiter(m.sources[source := bucket], pending, window), verdict)
  }

  function Saturating(n: nat): nat { if n == 0 then 0 else n - 1 }

  /** Dropping a slot. */
  function Drop(l: Limiter, source: Source): Limiter
  {
    var m := l.(globalPending := Saturating(l.globalPending));
    if source in l.sources
    then m.(sources := l.sources[source := l.sources[source].(pending := Saturating(l.sources[source].pending))])
    else m
  }

  // ---- The object ----

  class AdmissionLimiter {
    var sources: map<Source, Bucket>
    var globalPending: nat
    var globalWindow: RateWindow

    ghost function Value(): Limiter
      reads this
    {
      Limiter(sources, globalPending, globalWindow)
    }

    constructor (now: Instant)
      ensures Value() == NewLimiter(now)
    {
      sources, globalPending, globalWindow := map[], 0, RateWindow(now, 0, RATE_GLOBAL);
    }

    method Evict(now: Instant)
      modifies this`sources
      ensures sources == EvictIdle(old(sources), now)
    {
      var expired := set s | s in sources && Idle(sources[s], now);
      while expired != {}
        invariant forall s :: s in expired ==> s in sources
        invariant forall s :: s in sources ==> s in old(sources) && sources[s] == old(sources)[s]
        invariant forall s :: s in old(sources) ==> (s in sources <==> s in expired || !Idle(old(sources)[s], now))
        decreases expired
      {
        var s :| s in expired;
        sources, expired := sources - {s}, expired - {s};
      }
    }

    method BeginAttempt(source: Source, now: Instant) returns (verdict: Verdict)
      modifies this
      ensures (Value(), verdict) == Begin(old(Value()), source, now)
    {
      if source !in sources && |sources| >= SOURCE_BUCKET_LIMIT {
        Evict(now);
        if source !in sources && |sources| >= SOURCE_BUCKET_LIMIT {
          return BucketsFull;
        }
      }
      var saturated := Saturated(globalWindow, now);
      globalWindow := Recorded(globalWindow, now);
      if saturated {
        return GlobalRate;
      }
      if globalPending >= PENDING_GLOBAL {
        return GlobalPending;
      }
      var bucket := if source in sources then sources[source] else Bucket(0, RateWindow(now, 0, RATE_PER_SOURCE), now);
      bucket := bucket.(lastSeen := now);
      saturated := Saturated(bucket.window, now);
      bucket := bucket.(window := Recorded(bucket.window, now));
      if saturated || bucket.pending >= PENDING_PER_SOURCE {
        sources := sources[source := bucket];
        return if saturated then SourceRate else SourcePending;
      }
      sources := sources[source := bucket.(pending := bucket.pending + 1)];
      globalPending := globalPending + 1;
      return Admitted;
    }

    method DropSlot(source: Source)
      modifies this
      ensures Value() == Drop(old(Value()), source)
    {
      globalPending := Saturating(globalPending);
      if source in sources {
        sources := sources[source := sources[source].(pending := Saturating(sources[source].pending))];
      }
    }
  }
}
