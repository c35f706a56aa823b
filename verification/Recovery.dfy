/**
 The recovery controller: which members are still unreachable, when the next attempt is due, and how
 far apart attempts are over whole runs, under any clock.
 */
module Recovery {
  import opened Wrappers
  import opened Arithmetic

  type Node = nat

  const U64_MAX: nat := 0xFFFF_FFFF_FFFF_FFFF

  type U64 = n: nat | n <= U64_MAX

  function SaturatingAdd(a: nat, b: nat): U64
  {
    if a + b <= U64_MAX then a + b else U64_MAX
  }

  function SaturatingMul(a: nat, b: nat): U64
  {
    if a * b <= U64_MAX then a * b else U64_MAX
  }

  function SaturatingSub(a: nat, b: nat): nat
  {
    if b <= a then a - b else 0
  }

  function Min(a: nat, b: nat): nat
  {
    if a <= b then a else b
  }

  function Pow2(k: nat): nat
  {
    if k == 0 then 1 else 2 * Pow2(k - 1)
  }

  datatype Policy = Policy(fanOut: nat, initialBackoff: U64, maximumBackoff: U64)

  datatype Phase = Idle | Recovering | Connected

  datatype Step = Step(targets: seq<Node>, backoffSeconds: U64)

  /** The controller's fields. */
  datatype Control = Control(policy: Policy, phase: Phase, attempts: U64, lastAttemptAt: U64, pending: set<Node>)

  function CappedBackoff(policy: Policy, attempts: nat): U64
  {
    Min(SaturatingMul(policy.initialBackoff, Pow2(Min(attempts, 16))), policy.maximumBackoff)
  }

  function BackoffSeconds(c: Control, now: U64): U64
  {
    var capped := CappedBackoff(c.policy, c.attempts);
    if now >= SaturatingAdd(c.lastAttemptAt, capped) then 0 else capped
  }

  predicate Due(c: Control, now: U64)
  {
    c.phase.Recovering? && now >= SaturatingAdd(c.lastAttemptAt, BackoffSeconds(c, now))
  }

  function NextAttemptSeconds(c: Control, now: U64): Option<U64>
  {
    if c.phase.Recovering? then Some(SaturatingAdd(c.lastAttemptAt, BackoffSeconds(c, now))) else None
  }

  function Start(policy: Policy): Control
  {
    Control(policy, Idle, 0, 0, {})
  }

  datatype Event =
    | Observed(online: set<Node>, reachable: set<Node>)
    | Stepped(now: U64)
    | Forced(now: U64)

  function Apply(c: Control, e: Event): Control
  {
    match e
    case Observed(online, reachable) =>
      var unreachable := online - reachable;
      if unreachable == {} then c.(phase := if c.phase.Idle? then Idle else Connected, pending := {})
      else if c.phase.Recovering? then c.(pending := unreachable)
      else c.(phase := Recovering, attempts := 0, pending := unreachable)
    case Stepped(now) =>
      c.(lastAttemptAt := now, attempts := SaturatingAdd(c.attempts, 1))
    case Forced(now) =>
      if c.pending == {} && !c.phase.Recovering? then c
      else c.(phase := Recovering, lastAttemptAt := SaturatingSub(now, 1))
  }

  class RecoveryController {
    const policy: Policy
    var phase: Phase
    var attempts: U64
    var lastAttemptAt: U64
    var pending: set<Node>

    function View(): Control
      reads this
    {
      Control(policy, phase, attempts, lastAttemptAt, pending)
    }

    constructor (policy: Policy)
      ensures View() == Start(policy)
    {
      this.policy := policy;
      phase, attempts, lastAttemptAt, pending := Idle, 0, 0, {};
    }

    method Observe(online: set<Node>, reachable: set<Node>)
      modifies this
      ensures View() == Apply(old(View()), Observed(online, reachable))
    {
      var unreachable := online - reachable;
      if unreachable == {} {
        if phase != Idle {
          phase := Connected;
        }
        pending := {};
        return;
      }
      pending := unreachable;
      if phase == Idle || phase == Connected {
        phase := Recovering;
        attempts := 0;
      }
    }

    method NextStep(now: U64, candidates: seq<Node>) returns (step: Step)
      modifies this`lastAttemptAt, this`attempts
      ensures View() == Apply(old(View()), Stepped(now))
      ensures step.targets <= candidates
      ensures |step.targets| == Min(if policy.fanOut == 0 then 1 else policy.fanOut, |candidates|)
      ensures step.backoffSeconds == BackoffSeconds(old(View()), now)
      ensures old(Due(View(), now)) ==> step.backoffSeconds == 0
    {
      var backoff := BackoffSeconds(View(), now);
      var width := if policy.fanOut > 1 then policy.fanOut else 1;
      var targets := if width <= |candidates| then candidates[..width] else candidates;
      lastAttemptAt := now;
      attempts := if attempts < U64_MAX then attempts + 1 else U64_MAX;
      step := Step(targets, backoff);
    }

    method Immediate(now: U64)
      modifies this`phase, this`lastAttemptAt
      ensures View() == Apply(old(View()), Forced(now))
    {
      if pending == {} && phase != Recovering {
        return;
      }
      phase := Recovering;
      lastAttemptAt := if now > 0 then now - 1 else 0;
    }
  }

  // ---- Backoff and deadline ----

  lemma {:induction false} Pow2Grows(j: nat, k: nat)
    requires j <= k
    ensures 1 <= Pow2(j) <= Pow2(k)
  {
    if j < k {
      Pow2Grows(j, k - 1);
    } else if k > 0 {
      Pow2Grows(k - 1, k - 1);
    }
  }

  /** The multiplication's saturation never shows: the backoff is the doubled one, capped. */
  lemma BackoffIsDoubledAndCapped(policy: Policy, attempts: nat)
    ensures CappedBackoff(policy, attempts) ==
            Min(policy.initialBackoff * Pow2(Min(attempts, 16)), policy.maximumBackoff)
  {
  }

  lemma BackoffGrows(policy: Policy, j: nat, k: nat)
    requires j <= k
    ensures CappedBackoff(policy, j) <= CappedBackoff(policy, k)
  {
    var a, b := Pow2(Min(j, 16)), Pow2(Min(k, 16));
    Pow2Grows(Min(j, 16), Min(k, 16));
    ScaleKeepsOrder(a, b, policy.initialBackoff);
  }

  /** When a step is due: the full backoff after the last attempt, on the reading itself. A clock that
      rolls back delays it and one that jumps forward makes it due. */
  lemma DueExactly(c: Control, now: U64)
    ensures Due(c, now) <==>
            c.phase.Recovering? && now >= SaturatingAdd(c.lastAttemptAt, CappedBackoff(c.policy, c.attempts))
    ensures Due(c, now) <==> NextAttemptSeconds(c, now).Some? && now >= NextAttemptSeconds(c, now).value
  {
  }

  /** The attempt announced is the first that is due: before its deadline the full capped backoff is left,
      and exactly the readings from the announced one on are due. */
  lemma AnnouncedIsFirstDue(c: Control, now: U64, later: U64)
    requires c.phase.Recovering? && !Due(c, now)
    ensures BackoffSeconds(c, now) == Min(c.policy.initialBackoff * Pow2(Min(c.attempts, 16)), c.policy.maximumBackoff)
    ensures NextAttemptSeconds(c, now).Some? && now < NextAttemptSeconds(c, now).value
    ensures Due(c, later) <==> later >= NextAttemptSeconds(c, now).value
  {
    BackoffIsDoubledAndCapped(c.policy, c.attempts);
    hide CappedBackoff, SaturatingMul;
    DueExactly(c, now);
    DueExactly(c, later);
  }

  /** Once due, nothing is left to wait for. */
  lemma DueWaitsNoMore(c: Control, now: U64)
    requires Due(c, now)
    ensures BackoffSeconds(c, now) == 0 && NextAttemptSeconds(c, now) == Some(c.lastAttemptAt)
  {
  }

  /** A forced cycle is due at once only when the capped backoff is at most a second, or at the end of
      the clock's range. */
  lemma ForcedDueExactly(c: Control, now: U64)
    ensures Due(Apply(c, Forced(now)), now) <==>
            && (c.phase.Recovering? || c.pending != {})
            && (now == U64_MAX || CappedBackoff(c.policy, c.attempts) <= (if now == 0 then 0 else 1))
  {
    DueExactly(Apply(c, Forced(now)), now);
  }

  /** A forced cycle that is not due: five seconds of backoff, forced at 200. */
  lemma ForcedCycleWaits(c: Control)
    requires c.phase.Recovering? && c.policy == Policy(1, 5, 60) && c.attempts == 0
    ensures !Due(Apply(c, Forced(200)), 200) && Due(Apply(c, Forced(200)), 204)
  {
    ForcedDueExactly(c, 200);
    DueExactly(Apply(c, Forced(200)), 204);
  }

  // ---- Runs ----

  /** Steps are taken only when due. */
  predicate Enabled(c: Control, e: Event)
  {
    e.Stepped? ==> Due(c, e.now)
  }

  function After(c: Control, events: seq<Event>): Control
  {
    if events == [] then c else Apply(After(c, events[..|events| - 1]), events[|events| - 1])
  }

  predicate Legal(c: Control, events: seq<Event>)
  {
    forall i :: 0 <= i < |events| ==> Enabled(After(c, events[..i]), events[i])
  }

  predicate Unforced(events: seq<Event>)
  {
    forall i :: 0 <= i < |events| ==> !events[i].Forced?
  }

  predicate ActiveWhilePending(c: Control)
  {
    c.phase.Recovering? <==> c.pending != {}
  }

  /** Over every run, forced or not: recovery is active exactly while some known online member is
      unreachable, and those are the unreachable members of the last observation. */
  lemma {:induction false} RecoveringIffPending(policy: Policy, events: seq<Event>)
    ensures ActiveWhilePending(After(Start(policy), events))
    ensures After(Start(policy), events).policy == policy
    ensures After(Start(policy), events).pending == LastUnreachable(events)
  {
    if events != [] {
      RecoveringIffPending(policy, events[..|events| - 1]);
    }
  }

  function LastUnreachable(events: seq<Event>): set<Node>
  {
    if events == [] then {}
    else
      var e := events[|events| - 1];
      if e.Observed? then e.online - e.reachable else LastUnreachable(events[..|events| - 1])
  }

  /** Some observation left members unreachable. */
  predicate EverUnreachable(events: seq<Event>)
  {
    exists i :: 0 <= i < |events| && events[i].Observed? && events[i].online - events[i].reachable != {}
  }

  /** The phase in full: recovering while members are unreachable, connected once they are not any more, and
      idle as long as they never were. */
  lemma {:induction false} PhaseExactly(policy: Policy, events: seq<Event>)
    ensures After(Start(policy), events).phase ==
            if LastUnreachable(events) != {} then Recovering else if EverUnreachable(events) then Connected else Idle
  {
    if events != [] {
      var front, last := events[..|events| - 1], |events| - 1;
      PhaseExactly(policy, front);
      RecoveringIffPending(policy, front);
      var e := events[last];
      assert EverUnreachable(events) <==>
             EverUnreachable(front) || (e.Observed? && e.online - e.reachable != {}) by {
        assert forall i :: 0 <= i < last ==> front[i] == events[i];
      }
      LastWasSome(front);
    }
  }

  lemma {:induction false} LastWasSome(events: seq<Event>)
    ensures LastUnreachable(events) != {} ==> EverUnreachable(events)
  {
    if events != [] {
      var front, last := events[..|events| - 1], events[|events| - 1];
      LastWasSome(front);
      if !last.Observed? && EverUnreachable(front) {
        var i :| 0 <= i < |front| && front[i].Observed? && front[i].online - front[i].reachable != {};
        assert events[i] == front[i];
      }
    }
  }

  /** The readings of the steps taken. */
  function Readings(events: seq<Event>): seq<U64>
  {
    if events == [] then []
    else
      var e := events[|events| - 1];
      Readings(events[..|events| - 1]) + if e.Stepped? then [e.now] else []
  }

  lemma LegalPrefix(c: Control, events: seq<Event>)
    requires events != [] && Legal(c, events)
    ensures Legal(c, events[..|events| - 1])
    ensures Enabled(After(c, events[..|events| - 1]), events[|events| - 1])
  {
    var before := events[..|events| - 1];
    forall i | 0 <= i < |before| ensures Enabled(After(c, before[..i]), before[i]) {
      assert before[..i] == events[..i] && before[i] == events[i];
    }
  }

  lemma {:induction false} PolicyStays(c: Control, events: seq<Event>)
    ensures After(c, events).policy == c.policy
  {
    if events != [] {
      PolicyStays(c, events[..|events| - 1]);
    }
  }

  /** The last attempt is the last reading. */
  lemma {:induction false} LastReading(c: Control, events: seq<Event>)
    requires Unforced(events)
    ensures var rs := Readings(events);
            After(c, events).lastAttemptAt == if rs == [] then c.lastAttemptAt else rs[|rs| - 1]
  {
    if events != [] {
      LastReading(c, events[..|events| - 1]);
    }
  }

  /** The time `n` attempts take at least, from the `k`-th of an episode on. */
  function Gaps(policy: Policy, k: nat, n: nat): nat
  {
    if n == 0 then 0 else Gaps(policy, k, n - 1) + CappedBackoff(policy, k + n - 1)
  }

  /** The events of one episode: the unreachable set changes but is never empty. */
  predicate WithinEpisode(events: seq<Event>)
  {
    forall i :: 0 <= i < |events| && events[i].Observed? ==> events[i].online - events[i].reachable != {}
  }

  /** Within an episode the controller stays active and counts its steps. */
  lemma {:induction false} EpisodeCounts(c: Control, events: seq<Event>)
    requires c.phase.Recovering? && WithinEpisode(events) && Unforced(events)
    ensures var last := After(c, events);
            && last.phase.Recovering? && last.policy == c.policy
            && last.attempts == SaturatingAdd(c.attempts, |Readings(events)|)
  {
    if events != [] {
      var before := events[..|events| - 1];
      EpisodeCounts(c, before);
      var e := events[|events| - 1];
      assert e.Observed? ==> e.online - e.reachable != {};
      assert !e.Forced?;
    }
  }

  lemma SaturatedBackoff(policy: Policy, a: nat, b: nat)
    ensures CappedBackoff(policy, SaturatingAdd(a, b)) == CappedBackoff(policy, a + b)
  {
  }

  /** From an active controller, the n-th step of the episode comes no sooner than the sum of the n
      backoffs after the last attempt before it, however the clock moves in between. */
  lemma {:induction false} EpisodeReading(c: Control, events: seq<Event>, n: nat)
    requires c.phase.Recovering? && WithinEpisode(events) && Unforced(events) && Legal(c, events)
    requires n < |Readings(events)|
    ensures Readings(events)[n] >= SaturatingAdd(c.lastAttemptAt, Gaps(c.policy, c.attempts, n + 1))
  {
    var before, e := events[..|events| - 1], events[|events| - 1];
    LegalPrefix(c, events);
    var rs := Readings(before);
    if n < |rs| {
      EpisodeReading(c, before, n);
    } else {
      EpisodeCounts(c, before);
      LastReading(c, before);
      DueExactly(After(c, before), e.now);
      SaturatedBackoff(c.policy, c.attempts, n);
      if n > 0 {
        EpisodeReading(c, before, n - 1);
      }
    }
  }

  /** An episode that an observation opens starts its backoff afresh: its n-th step comes no sooner than
      the first n backoffs after the last attempt of any earlier episode. */
  lemma ActivationReading(c: Control, online: set<Node>, reachable: set<Node>, events: seq<Event>, n: nat)
    requires !c.phase.Recovering? && online - reachable != {}
    requires WithinEpisode(events) && Unforced(events) && Legal(Apply(c, Observed(online, reachable)), events)
    requires n < |Readings(events)|
    ensures Readings(events)[n] >= SaturatingAdd(c.lastAttemptAt, Gaps(c.policy, 0, n + 1))
  {
    EpisodeReading(Apply(c, Observed(online, reachable)), events, n);
  }

  /** The steps of one episode, counted from its first: n of them span at least the sum of the gaps
      between them. */
  lemma EpisodeSpan(c: Control, first: U64, events: seq<Event>)
    requires Due(c, first) && Readings(events) != []
    requires WithinEpisode(events) && Unforced(events) && Legal(Apply(c, Stepped(first)), events)
    ensures var rs := Readings(events);
            rs[|rs| - 1] >= SaturatingAdd(first, Gaps(c.policy, c.attempts + 1, |rs|))
  {
    hide After, Legal, CappedBackoff, Gaps;
    var next := Apply(c, Stepped(first));
    var rs := Readings(events);
    EpisodeReading(next, events, |rs| - 1);
    GapsSaturate(c.policy, c.attempts, |rs|);
  }

  lemma {:induction false} GapsSaturate(policy: Policy, k: nat, n: nat)
    ensures Gaps(policy, SaturatingAdd(k, 1), n) == Gaps(policy, k + 1, n)
  {
    if n > 0 {
      GapsSaturate(policy, k, n - 1);
    }
  }

  /** The time `n` gaps take at least when every one is the smallest. */
  function Spacing(policy: Policy, n: nat): nat
  {
    Times(n, CappedBackoff(policy, 0))
  }

  lemma SpacingStep(policy: Policy, n: nat)
    ensures Spacing(policy, n + 1) == Spacing(policy, n) + CappedBackoff(policy, 0)
  {
    TimesStep(n, CappedBackoff(policy, 0));
  }

  lemma NextReading(c: Control, before: seq<Event>, now: U64)
    requires Unforced(before) && Readings(before) != [] && Due(After(c, before), now)
    ensures var rs := Readings(before);
            now >= SaturatingAdd(rs[|rs| - 1], CappedBackoff(c.policy, 0))
  {
    hide After, CappedBackoff, Due, Readings;
    LastReading(c, before);
    PolicyStays(c, before);
    var last := After(c, before);
    DueExactly(last, now);
    BackoffGrows(c.policy, 0, last.attempts);
  }

  /** No storms: over any run at all, however often recovery stops and restarts, the i-th and j-th
      steps are at least j - i smallest backoffs apart. */
  lemma {:induction false} StepsNeverStorm(c: Control, events: seq<Event>, i: nat, j: nat)
    requires Unforced(events) && Legal(c, events)
    requires i <= j < |Readings(events)|
    ensures Readings(events)[j] >= SaturatingAdd(Readings(events)[i], Spacing(c.policy, j - i))
  {
    var before, e := events[..|events| - 1], events[|events| - 1];
    LegalPrefix(c, events);
    assert Unforced(before);
    assert i == j ==> Spacing(c.policy, 0) == 0;
    hide After, Legal, CappedBackoff, Due, Spacing, Unforced;
    var rs := Readings(before);
    if j < |rs| {
      StepsNeverStorm(c, before, i, j);
    } else if i < j {
      StepsNeverStorm(c, before, i, j - 1);
      NextReading(c, before, e.now);
      SpacingStep(c.policy, j - 1 - i);
    }
  }

  ghost predicate Fits(policy: Policy, n: nat)
  {
    policy.initialBackoff * Pow2(n) <= policy.maximumBackoff
  }

  lemma HalfFits(policy: Policy, n: nat)
    requires n > 0 && Fits(policy, n)
    ensures Fits(policy, n - 1)
  {
    Pow2Grows(n - 1, n);
    ScaleKeepsOrder(Pow2(n - 1), Pow2(n), policy.initialBackoff);
  }

  lemma Uncapped(policy: Policy, n: nat)
    requires n <= 16 && Fits(policy, n)
    ensures CappedBackoff(policy, n) == policy.initialBackoff * Pow2(n)
  {
    BackoffIsDoubledAndCapped(policy, n);
  }

  lemma Doubling(x: nat, p: int, gap: nat, before: int)
    requires gap == x * p && before == x * (p - 2)
    ensures before + gap == x * (2 * p - 2)
  {
    Distribute(x, p - 2, p);
  }

  /** While the doubling is not capped the gaps double: n steps after the first take at least
      `initial * (2^(n+1) - 2)` seconds. */
  lemma {:induction false} GapsDouble(policy: Policy, n: nat)
    requires n <= 16 && Fits(policy, n)
    ensures Gaps(policy, 1, n) == policy.initialBackoff * (Pow2(n + 1) - 2)
  {
    hide CappedBackoff, Fits;
    if n > 0 {
      HalfFits(policy, n);
      GapsDouble(policy, n - 1);
      Uncapped(policy, n);
      Doubling(policy.initialBackoff, Pow2(n), CappedBackoff(policy, n), Gaps(policy, 1, n - 1));
    }
  }
}
