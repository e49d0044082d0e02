/**
 The wait an answer names is exact: not a millisecond too long or too short.
 */
module LeakyRetry {
  import opened Numbers
  import opened LeakyBucket
  import opened LeakyFixed
  import opened LeakyContinuous
  import opened LeakyExpiry

  lemma LeastWaitIsUnique(cfg: Config, level: real, hits: int, w: int, v: int)
    requires Positive(cfg) && Ms(cfg) > 0.0
    requires LeastWait(cfg, level, hits, w) && LeastWait(cfg, level, hits, v)
    ensures w == v
  {
    hide LevelAfter;
  }

  /** After part of a wait, the rest of it is the wait. */
  lemma LeastWaitShrinks(cfg: Config, level: real, hits: int, w: int, d: int)
    requires Positive(cfg) && Ms(cfg) > 0.0 && LeastWait(cfg, level, hits, w) && 0 <= d < w && level < hits as real
    ensures LeastWait(cfg, LevelAfter(cfg, level, d), hits, w - d)
    ensures LevelAfter(cfg, level, d) < hits as real
  {
    hide Ms;
    AfterBoth(cfg, level, d, w - d);
    AfterNothing(cfg, level);
    forall v | 1 <= v < w - d
      ensures LevelAfter(cfg, LevelAfter(cfg, level, d), v) < hits as real
    {
      AfterBoth(cfg, level, d, v);
    }
  }

  lemma AfterBoth(cfg: Config, level: real, d: int, v: int)
    requires Positive(cfg) && Ms(cfg) > 0.0
    ensures LevelAfter(cfg, LevelAfter(cfg, level, d), v) == LevelAfter(cfg, level, d + v)
  {
    hide Ms;
    LeakAdds(cfg, d as real, v as real);
  }

  lemma AfterNothing(cfg: Config, level: real)
    requires Positive(cfg) && Ms(cfg) > 0.0
    ensures LevelAfter(cfg, level, 0) == level
  {
    hide Ms;
    ZeroOver(Ms(cfg));
  }

  /** A wait as long as the least one covers the hits. */
  lemma LongerWaitCovers(cfg: Config, level: real, hits: int, w: int, d: int)
    requires Positive(cfg) && Ms(cfg) > 0.0 && LeastWait(cfg, level, hits, w) && w <= d
    ensures LevelAfter(cfg, level, d) >= hits as real
  {
    hide Ms;
    AfterBoth(cfg, level, w, d - w);
    TimeOfLeak(cfg, (d - w) as real);
  }

  /** A booked caller finds the debt it waits for repaid when it was told to act, and not before. */
  lemma BookedUntilExactly(cfg: Config, keep: bool, slot: Slot, e: Event)
    requires Positive(cfg) && Steady(cfg, e) && Fits(cfg, slot, e.env.now)
    requires Fitting(cfg, e) || Lookup(slot, e.env.now, keep).Held?
    requires var a := LeakyStep(EXACT, keep, slot, e.r, e.env).answer; a.Answer? && a.status == Scheduled
    ensures var step := LeakyStep(EXACT, keep, slot, e.r, e.env);
            var w := step.answer.retryAfter;
            && Balance(cfg, step.slot, e.env.now + w) >= 0.0
            && Balance(cfg, step.slot, e.env.now + w - 1) < 0.0
  {
    hide LeakyStep, Balance, Ms, LevelAfter;
    RefinesReference(cfg, keep, slot, e);
    StepFromBalance(EXACT, cfg, keep, slot, e);
    var step := LeakyStep(EXACT, keep, slot, e.r, e.env);
    var w := step.answer.retryAfter;
    var level := Balance(cfg, Lookup(slot, e.env.now, keep), e.env.now);
    BalanceAfter(cfg, step.slot, e.env.now, w);
    BalanceAfter(cfg, step.slot, e.env.now, w - 1);
    AfterShift(cfg, level, e.r.hits, w);
    AfterShift(cfg, level, e.r.hits, w - 1);
    AfterNothing(cfg, level);
  }

  lemma BalanceAfter(cfg: Config, slot: Slot, now: int, d: int)
    requires Positive(cfg) && Fits(cfg, slot, now) && 0 <= d
    ensures Ms(cfg) > 0.0
    ensures Balance(cfg, slot, now + d) == MinReal(cfg.burst as real, LevelAfter(cfg, Balance(cfg, slot, now), d))
  {
    hide Balance, Ms;
    MsPositive(cfg);
    BalanceLater(cfg, slot, now, now + d);
  }

  lemma AfterShift(cfg: Config, level: real, hits: int, d: int)
    requires Positive(cfg) && Ms(cfg) > 0.0
    ensures LevelAfter(cfg, level - hits as real, d) == LevelAfter(cfg, level, d) - hits as real
  {
    hide Ms;
  }

  /** What a caller who is asking again should hear, with so much of the wait left. */
  predicate CountsDown(a: Answer, rest: int, again: Event) {
    && a.Answer?
    && if rest > 0
       then
         && a.retryAfter == rest
         && a.status == if rest <= Min(again.r.maxWait, again.env.ceiling) then Scheduled else OverLimit
       else a.status == UnderLimit
  }

  /** A request that is refused and the same request again, when nobody else has asked meanwhile. */
  ghost predicate RefusedTwice(cfg: Config, keep: bool, slot: Slot, e: Event, again: Event) {
    && Positive(cfg) && Steady(cfg, e) && Steady(cfg, again) && Fits(cfg, slot, e.env.now)
    && e.r.maxWait > 0 && again.r.maxWait > 0 && again.r.hits == e.r.hits && e.env.now <= again.env.now
    && var a := LeakyStep(EXACT, keep, slot, e.r, e.env).answer;
       a.Answer? && a.status == OverLimit
  }

  /** What is left of the wait the first answer named. */
  function Rest(keep: bool, slot: Slot, e: Event, again: Event): int {
    var a := LeakyStep(EXACT, keep, slot, e.r, e.env).answer;
    (if a.Answer? then a.retryAfter else 0) - (again.env.now - e.env.now)
  }

  /** A refused caller is charged nothing, and while the key is cached is told the rest of the wait,
      until it is over and the caller is admitted. */
  lemma CachedRefusalCountsDown(cfg: Config, keep: bool, slot: Slot, e: Event, again: Event)
    requires RefusedTwice(cfg, keep, slot, e, again)
    ensures var step := LeakyStep(EXACT, keep, slot, e.r, e.env);
            && Alike(cfg, Lookup(slot, e.env.now, keep), step.slot, e.env.now)
            && e.r.hits <= cfg.burst
            && CountsDown(LeakyStep(EXACT, true, step.slot, again.r, again.env).answer, Rest(keep, slot, e, again),
                          again)
  {
    hide LeakyStep, Balance, Ms, LeastWait, LevelAfter;
    var step := LeakyStep(EXACT, keep, slot, e.r, e.env);
    var level := Balance(cfg, Lookup(slot, e.env.now, keep), e.env.now);
    RefinesReference(cfg, keep, slot, e);
    StepFromBalance(EXACT, cfg, keep, slot, e);
    var w, d := step.answer.retryAfter, again.env.now - e.env.now;
    BalanceAfter(cfg, step.slot, e.env.now, d);
    RefinesReference(cfg, true, step.slot, again);
    LeastIsPositive(cfg, level, e.r.hits, w);
    if d < w {
      LeastWaitShrinks(cfg, level, e.r.hits, w, d);
      var later := LevelAfter(cfg, level, d);
      var a := LeakyStep(EXACT, true, step.slot, again.r, again.env).answer;
      LeastWaitIsUnique(cfg, later, e.r.hits, w - d, a.retryAfter);
    } else {
      LongerWaitCovers(cfg, level, e.r.hits, w, d);
    }
  }

  lemma RefusedIsHeld(cfg: Config, slot: Slot, e: Event, again: Event)
    requires RefusedTwice(cfg, false, slot, e, again)
    ensures Lookup(slot, e.env.now, false).Held?
  {
    hide ExistingStep, RateOf;
  }

  /** A refusal restarts the expiry of a key that is not in debt, and leaves that of one that is. */
  lemma RefusedExpiry(cfg: Config, slot: Slot, e: Event, again: Event)
    requires RefusedTwice(cfg, false, slot, e, again)
    ensures Lookup(slot, e.env.now, false).Held?
    ensures var step := LeakyStep(EXACT, false, slot, e.r, e.env);
            step.slot.Held? &&
            step.slot.expireAt == if slot.bucket.remaining >= 0.0 then e.env.now + cfg.duration else slot.expireAt
  {
    hide LeakyStep, Balance, Ms, Count, ExtendExpiry;
    RefusedIsHeld(cfg, slot, e, again);
    BalanceAtMostBurst(cfg, slot, e.env.now);
    StepFromLevel(EXACT, cfg, false, slot, e);
    CountCases(EXACT, cfg, Balance(cfg, slot, e.env.now), e, slot.bucket.remaining < 0.0);
  }

  /** In a cache that drops expired keys the countdown holds if and only if the key is still cached, or
      the wait is over; a dropped key admits the caller early. */
  lemma RefusalCountsDownIff(cfg: Config, slot: Slot, e: Event, again: Event)
    requires RefusedTwice(cfg, false, slot, e, again)
    ensures Lookup(slot, e.env.now, false).Held?
    ensures var step := LeakyStep(EXACT, false, slot, e.r, e.env);
            var expiry := if slot.bucket.remaining >= 0.0 then e.env.now + cfg.duration else slot.expireAt;
            var rest := Rest(false, slot, e, again);
            && Alike(cfg, slot, step.slot, e.env.now)
            && (CountsDown(LeakyStep(EXACT, false, step.slot, again.r, again.env).answer, rest, again) <==>
                again.env.now <= expiry || rest <= 0)
  {
    hide LeakyStep, Balance, Ms;
    RefusedExpiry(cfg, slot, e, again);
    CachedRefusalCountsDown(cfg, false, slot, e, again);
    var step := LeakyStep(EXACT, false, slot, e.r, e.env);
    if again.env.now <= step.slot.expireAt {
      CachedLooksKept(step.slot, again);
    } else {
      DroppedAdmits(step.slot, again);
    }
  }

  lemma CachedLooksKept(slot: Slot, e: Event)
    requires slot.Held? && e.env.now <= slot.expireAt
    ensures LeakyStep(EXACT, false, slot, e.r, e.env) == LeakyStep(EXACT, true, slot, e.r, e.env)
  {
    hide ExistingStep;
  }

  lemma DroppedAdmits(slot: Slot, e: Event)
    requires slot.Held? && slot.expireAt < e.env.now && e.r.hits <= RequestBurst(e.r) && !e.r.gregorian
    ensures var a := LeakyStep(EXACT, false, slot, e.r, e.env).answer; a.Answer? && a.status == UnderLimit
  {
    hide RateOf;
  }

  /** With a burst that refills in time, and a key kept until it is full, the countdown always holds. */
  lemma RefusalCountsDown(cfg: Config, slot: Slot, e: Event, again: Event)
    requires RefusedTwice(cfg, false, slot, e, again) && Refillable(cfg) && RefillsInTime(cfg, slot)
    ensures var step := LeakyStep(EXACT, false, slot, e.r, e.env);
            && Alike(cfg, slot, step.slot, e.env.now)
            && CountsDown(LeakyStep(EXACT, false, step.slot, again.r, again.env).answer, Rest(false, slot, e, again),
                          again)
  {
    hide LeakyStep, Balance, Ms, RefillsInTime, CountsDown;
    RefusedIsHeld(cfg, slot, e, again);
    CachedRefusalCountsDown(cfg, false, slot, e, again);
    StepRefillsInTime(cfg, slot, e);
    WaitersNeverDrain(cfg, slot, e);
    var after := LeakyStep(EXACT, false, slot, e.r, e.env).slot;
    AlikeLater(cfg, after, after, e.env.now, again.env.now);
    ExpiringStepIsAlike(cfg, after, after, again);
  }

  lemma WaitersNeverDrain(cfg: Config, slot: Slot, e: Event)
    requires Positive(cfg) && e.r.maxWait > 0
    ensures !DrainsPastExpiry(cfg, slot, e)
  {
  }

  // ----- Which configurations count down -----

  /** A run that never drains a key past its expiry. */
  ghost predicate NeverDrains(cfg: Config, events: seq<Event>)
    requires Positive(cfg)
  {
    SteadyRun(cfg, events) && forall n :: 0 <= n < |events| ==> !DrainsAt(cfg, events, n)
  }

  ghost predicate DrainsAt(cfg: Config, events: seq<Event>, n: nat)
    requires Positive(cfg) && n < |events|
  {
    Drains(cfg, Run(EXACT, false, events[..n]), events[n])
  }

  lemma NeverDrainsInit(cfg: Config, events: seq<Event>)
    requires Positive(cfg) && NeverDrains(cfg, events) && events != []
    ensures NeverDrains(cfg, events[..|events| - 1])
    ensures !Drains(cfg, Run(EXACT, false, events[..|events| - 1]), events[|events| - 1])
  {
    hide Drains, Steady, Run;
    var init := events[..|events| - 1];
    forall n | 0 <= n < |init|
      ensures !DrainsAt(cfg, init, n)
    {
      assert init[..n] == events[..n];
      assert !DrainsAt(cfg, events, n);
    }
    assert !DrainsAt(cfg, events, |events| - 1);
  }

  /** It leaves a key that is cached until it is full. */
  lemma {:induction false} NeverDrainsRefills(cfg: Config, events: seq<Event>, now: int)
    requires Positive(cfg) && Refillable(cfg) && NeverDrains(cfg, events)
    requires events != [] ==> events[|events| - 1].env.now <= now
    ensures RefillsInTime(cfg, Run(EXACT, false, events)) && Fits(cfg, Run(EXACT, false, events), now)
  {
    hide LeakyStep, Steady, DrainsPastExpiry, DrainsAt, Refillable;
    if events == [] {
    } else {
      var n := |events| - 1;
      NeverDrainsInit(cfg, events);
      NeverDrainsRefills(cfg, events[..n], events[n].env.now);
      StepRefillsInTime(cfg, Run(EXACT, false, events[..n]), events[n]);
      StepFits(EXACT, cfg, false, Run(EXACT, false, events[..n]), events[n]);
    }
  }

  /** After every run that never drains past an expiry, a refused caller hears the rest of the wait. */
  ghost predicate AlwaysCountsDown(cfg: Config)
    requires Positive(cfg)
  {
    forall events, e, again :: NeverDrains(cfg, events) && Refused(cfg, events, e, again) ==> Reminded(events, e, again)
  }

  ghost predicate Refused(cfg: Config, events: seq<Event>, e: Event, again: Event) {
    && RefusedTwice(cfg, false, Run(EXACT, false, events), e, again)
    && (events != [] ==> events[|events| - 1].env.now <= e.env.now)
  }

  ghost predicate Reminded(events: seq<Event>, e: Event, again: Event) {
    var slot := Run(EXACT, false, events);
    CountsDown(LeakyStep(EXACT, false, LeakyStep(EXACT, false, slot, e.r, e.env).slot, again.r, again.env).answer,
               Rest(false, slot, e, again), again)
  }

  /** So it is exactly where a spent burst refills by the time a key untouched since counts as expired. */
  lemma CountsDownIff(cfg: Config)
    requires Positive(cfg)
    ensures AlwaysCountsDown(cfg) <==> Refillable(cfg)
  {
    hide NeverDrains, Refused, Reminded, Refillable;
    if Refillable(cfg) {
      forall events, e, again | NeverDrains(cfg, events) && Refused(cfg, events, e, again)
        ensures Reminded(events, e, again)
      {
        RefillableReminds(cfg, events, e, again);
      }
    } else {
      SlowRefillForgets(cfg);
    }
  }

  lemma RefillableReminds(cfg: Config, events: seq<Event>, e: Event, again: Event)
    requires Positive(cfg) && Refillable(cfg) && NeverDrains(cfg, events) && Refused(cfg, events, e, again)
    ensures Reminded(events, e, again)
  {
    hide NeverDrains, Refillable, Run, LeakyStep, RefillsInTime, CountsDown;
    NeverDrainsRefills(cfg, events, e.env.now);
    RefusalCountsDown(cfg, Run(EXACT, false, events), e, again);
  }

  /** The whole burst, from a caller who would wait where the server lets nobody. */
  function Impatient(cfg: Config, now: int): Event {
    Event(Request(cfg.burst, cfg.limit, cfg.duration, cfg.burst, 1, now, false, false, false), Env(now, 0, NotACode))
  }

  lemma ImpatientIsRefused(cfg: Config)
    requires Positive(cfg)
    ensures var a := Count(EXACT, cfg, 0.0, Impatient(cfg, 0), false).answer;
            a.Answer? && a.status == OverLimit && a.retryAfter as real >= Time(cfg, cfg.burst as real)
  {
    hide Wait, Ms, FullAt, WholeRate, Time;
    MsPositive(cfg);
    assert cfg.burst as real - 0.0 == cfg.burst as real;
    WaitBounds(EXACT, cfg, 0.0, cfg.burst, 0);
  }

  /** A burst taken, asked for again at once and, when the key has just expired, once more. */
  lemma SlowRefillForgets(cfg: Config)
    requires Positive(cfg) && !Refillable(cfg)
    ensures !AlwaysCountsDown(cfg)
  {
    hide LeakyStep, Run, Count, Time, Balance, NeverDrains, CountsDown;
    var events, e, again := [WholeBurst(cfg, 0)], Impatient(cfg, 0), Impatient(cfg, cfg.duration + 1);
    var spent := Held(BucketAt(cfg, 0.0, 0), cfg.duration);
    BurstNeverDrains(cfg);
    BurstSpends(cfg);
    BalanceNow(cfg, 0.0, 0, cfg.duration);
    StepFromLevel(EXACT, cfg, false, spent, e);
    ImpatientIsRefused(cfg);
    RefusalCountsDownIff(cfg, spent, e, again);
    assert Refused(cfg, events, e, again) && !Reminded(events, e, again);
  }

  lemma BurstNeverDrains(cfg: Config)
    requires Positive(cfg)
    ensures NeverDrains(cfg, [WholeBurst(cfg, 0)])
  {
    hide Run, LeakyStep;
    OnlyDrainsDrain(cfg, Run(EXACT, false, [WholeBurst(cfg, 0)][..0]), WholeBurst(cfg, 0));
  }

  lemma BurstSpends(cfg: Config)
    requires Positive(cfg)
    ensures Run(EXACT, false, [WholeBurst(cfg, 0)]) == Held(BucketAt(cfg, 0.0, 0), cfg.duration)
  {
    hide LeakyStep, WholeBurst;
    FirstBurst(cfg);
    RunExtends(EXACT, false, [], WholeBurst(cfg, 0));
    assert [] + [WholeBurst(cfg, 0)] == [WholeBurst(cfg, 0)];
  }

  // ----- A burst over the limit -----

  const SLOW_REFILL := Config(1, 1000, 10)

  /** A request for the whole burst of ten on a key of one a second. */
  function AskTen(now: int, maxWait: int): Event {
    Event(Request(10, 1, 1000, 10, maxWait, now, false, false, false), Env(now, 300000, NotACode))
  }

  lemma SlowRefusal()
    ensures Run(EXACT, false, [AskTen(0, 0)]) == Held(BucketAt(SLOW_REFILL, 0.0, 0), 1000)
    ensures var a := Count(EXACT, SLOW_REFILL, 0.001, AskTen(1, 1), false).answer;
            a.Answer? && a.status == OverLimit && a.retryAfter == 9999
  {
    var events := [AskTen(0, 0)];
    assert events[..0] == [];
    assert RateOf(1000, 1) == PerToken(1000.0);
    hide RateOf;
    assert Ceil(9999.0) == 9999;
  }

  /** A key of one a second and a burst of ten, emptied at 0: ten more at 1 are refused with 9999 ms
      to go, the key expires at 1001, and at 1002 the caller is admitted with 8998 ms left. */
  lemma RefusalForgets()
    ensures var slot := Run(EXACT, false, [AskTen(0, 0)]);
            var e, again := AskTen(1, 1), AskTen(1002, 1);
            var step := LeakyStep(EXACT, false, slot, e.r, e.env);
            && step.answer.Answer? && step.answer.status == OverLimit && step.answer.retryAfter == 9999
            && Rest(false, slot, e, again) == 8998
            && !CountsDown(LeakyStep(EXACT, false, step.slot, again.r, again.env).answer, 8998, again)
  {
    hide LeakyStep, Count, Run, CountsDown;
    var slot := Held(BucketAt(SLOW_REFILL, 0.0, 0), 1000);
    SlowRefusal();
    SlowLevel();
    StepFromLevel(EXACT, SLOW_REFILL, false, slot, AskTen(1, 1));
    RefusalCountsDownIff(SLOW_REFILL, slot, AskTen(1, 1), AskTen(1002, 1));
  }

  lemma SlowLevel()
    ensures SnapToZero(EXACT, Balance(SLOW_REFILL, Held(BucketAt(SLOW_REFILL, 0.0, 0), 1000), 1)) == 0.001
  {
    assert Ms(SLOW_REFILL) == 1000.0;
  }

  lemma LeastIsPositive(cfg: Config, level: real, hits: int, w: int)
    requires Positive(cfg) && Ms(cfg) > 0.0 && LeastWait(cfg, level, hits, w)
    ensures w >= 1
  {
  }
}
