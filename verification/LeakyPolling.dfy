/**
 What asking for a key's status can change in a cache that drops expired keys, among requests within the
 burst. A query credits the balance, and a debt that is found repaid is no longer stored as one; a later
 drain then moves the expiry where it would have left it alone.
 */
module LeakyPolling {
  import opened Numbers
  import opened LeakyBucket
  import opened LeakyFixed
  import opened LeakyContinuous
  import opened LeakyExpiry
  import LeakyTolerance

  predicate InDebt(slot: Slot) {
    slot.Held? && slot.bucket.remaining < 0.0
  }

  /** At that moment the key is stored in debt but repaid, neither empty nor full, and would expire
      before an emptied bucket refills. */
  ghost predicate CanDrain(cfg: Config, slot: Slot, now: int)
    requires Positive(cfg)
  {
    && InDebt(slot) && now <= slot.expireAt
    && 0.0 < Balance(cfg, slot, now) < cfg.burst as real
    && (slot.expireAt + 1) as real < now as real + Time(cfg, cfg.burst as real)
  }

  /** A query finds a stored debt repaid, and there is still time for a drain past the expiry. */
  ghost predicate Telling(cfg: Config, slot: Slot, now: int)
    requires Positive(cfg)
  {
    && InDebt(slot) && 0.0 <= Balance(cfg, slot, now)
    && exists t :: now <= t && CanDrain(cfg, slot, t)
  }

  // ----- What every run keeps -----

  /** A key is not cached longer than a duration or its refill asks for. */
  ghost predicate Prompt(cfg: Config, slot: Slot)
    requires cfg.limit > 0
  {
    slot.Held? ==> slot.expireAt <= Max(slot.bucket.updatedAt + cfg.duration, Ceil(RefillAt(cfg, slot.bucket)))
  }

  ghost predicate Sound(cfg: Config, slot: Slot, now: int)
    requires Positive(cfg)
  {
    Fits(cfg, slot, now) && Prompt(cfg, slot) && (InDebt(slot) ==> RefillsInTime(cfg, slot))
  }

  lemma CeilGrows(x: real, y: real)
    requires x <= y
    ensures Ceil(x) <= Ceil(y)
  {
  }

  lemma CeilAtMost(x: real, n: int)
    requires x <= n as real
    ensures Ceil(x) <= n
  {
  }

  /** A debt that is repaid refills like an empty bucket, or sooner. */
  lemma RepaidRefills(cfg: Config, slot: Slot, now: int)
    requires Positive(cfg) && slot.Held? && Fits(cfg, slot, now)
    requires 0.0 <= Balance(cfg, slot, now)
    ensures RefillAt(cfg, slot.bucket) <= now as real + Time(cfg, cfg.burst as real)
  {
    hide Ms, Time;
    MsPositive(cfg);
    var b := slot.bucket;
    var elapsed := (now - b.updatedAt) as real;
    TimeOfLeak(cfg, elapsed);
    TimeAdds(cfg, cfg.burst as real, b.remaining);
    TimeGrows(cfg, -(elapsed / Ms(cfg)), b.remaining);
    TimeAdds(cfg, 0.0, elapsed / Ms(cfg));
    TimeAdds(cfg, 0.0, 0.0);
  }

  /** Once repaid, the expiry is at most a duration or an empty bucket's refill away. */
  lemma PromptOnceRepaid(cfg: Config, slot: Slot, now: int)
    requires Positive(cfg) && slot.Held? && Fits(cfg, slot, now) && Prompt(cfg, slot)
    requires 0.0 <= Balance(cfg, slot, now)
    ensures slot.expireAt <= Max(now + cfg.duration, Ceil(now as real + Time(cfg, cfg.burst as real)))
  {
    hide Ms, Time, Balance, RefillAt, Ceil;
    RepaidRefills(cfg, slot, now);
    CeilGrows(RefillAt(cfg, slot.bucket), now as real + Time(cfg, cfg.burst as real));
  }

  lemma FullIsRefill(cfg: Config, b: Bucket)
    requires Positive(cfg) && b.burst == cfg.burst
    ensures FullAt(b, PerToken(Ms(cfg))) == Ceil(RefillAt(cfg, b))
  {
    hide Ms, Ceil;
    assert b.updatedAt as real + (b.burst as real - b.remaining) * Ms(cfg) == RefillAt(cfg, b);
  }

  /** The balance a request leaves is at most what it found. */
  lemma StepSpends(cfg: Config, slot: Slot, e: Event)
    requires Positive(cfg) && Steady(cfg, e) && Fits(cfg, slot, e.env.now) && Lookup(slot, e.env.now, false).Held?
    ensures LeakyStep(EXACT, false, slot, e.r, e.env).slot.Held?
    ensures var b := LeakyStep(EXACT, false, slot, e.r, e.env).slot.bucket;
            var level := Balance(cfg, slot, e.env.now);
            && b == BucketAt(cfg, b.remaining, e.env.now) && b.remaining <= level
            && (b.remaining < 0.0 && 0.0 <= level ==>
                  LeakyStep(EXACT, false, slot, e.r, e.env).answer.Answer? &&
                  LeakyStep(EXACT, false, slot, e.r, e.env).answer.status == Scheduled)
            && (e.r.hits == 0 ==> b.remaining == level)
  {
    hide Count, Ms, Balance, LeakyStep, ExtendExpiry;
    BalanceAtMostBurst(cfg, slot, e.env.now);
    StepFromLevel(EXACT, cfg, false, slot, e);
    CountCases(EXACT, cfg, Balance(cfg, slot, e.env.now), e, slot.bucket.remaining < 0.0);
  }

  lemma ExpiryAfter(cfg: Config, slot: Slot, e: Event)
    requires Positive(cfg) && Steady(cfg, e) && Fits(cfg, slot, e.env.now) && Lookup(slot, e.env.now, false).Held?
    ensures LeakyStep(EXACT, false, slot, e.r, e.env).slot.Held?
    ensures var after := LeakyStep(EXACT, false, slot, e.r, e.env).slot;
            var touched :=
              if e.r.hits != 0 && slot.bucket.remaining >= 0.0 then e.env.now + cfg.duration else slot.expireAt;
            after.expireAt == touched ||
            after.expireAt == Max(touched, Max(e.env.now + cfg.duration, Ceil(RefillAt(cfg, after.bucket))))
  {
    hide Count, Ms, Balance, LeakyStep, RefillAt, Ceil, FullAt;
    StepSpends(cfg, slot, e);
    StepFromLevel(EXACT, cfg, false, slot, e);
    FullIsRefill(cfg, LeakyStep(EXACT, false, slot, e.r, e.env).slot.bucket);
  }

  /** A key refills when it always did, and spending moves that later, unless it is full already. */
  lemma RefillsLater(cfg: Config, slot: Slot, now: int, left: real)
    requires Positive(cfg) && slot.Held? && Fits(cfg, slot, now) && left <= Balance(cfg, slot, now)
    ensures RefillAt(cfg, slot.bucket) <= MaxReal(now as real, RefillAt(cfg, BucketAt(cfg, left, now)))
  {
    hide Ms, Time;
    MsPositive(cfg);
    var b := slot.bucket;
    var elapsed := (now - b.updatedAt) as real;
    var leak := elapsed / Ms(cfg);
    TimeOfLeak(cfg, elapsed);
    TimeAdds(cfg, cfg.burst as real - b.remaining, leak);
    if b.remaining + leak <= cfg.burst as real {
      TimeGrows(cfg, cfg.burst as real - b.remaining - leak, cfg.burst as real - left);
    } else {
      TimeGrows(cfg, cfg.burst as real - b.remaining, leak);
    }
  }

  lemma StepIsPrompt(cfg: Config, slot: Slot, e: Event)
    requires Positive(cfg) && Steady(cfg, e) && Fits(cfg, slot, e.env.now) && Prompt(cfg, slot)
    requires Lookup(slot, e.env.now, false).Held?
    ensures Prompt(cfg, LeakyStep(EXACT, false, slot, e.r, e.env).slot)
  {
    hide Ms, Balance, LeakyStep, RefillAt, Ceil;
    var after := LeakyStep(EXACT, false, slot, e.r, e.env).slot;
    StepSpends(cfg, slot, e);
    ExpiryAfter(cfg, slot, e);
    RefillsLater(cfg, slot, e.env.now, after.bucket.remaining);
    if RefillAt(cfg, slot.bucket) <= e.env.now as real {
      CeilAtMost(RefillAt(cfg, slot.bucket), e.env.now);
    } else {
      CeilGrows(RefillAt(cfg, slot.bucket), RefillAt(cfg, after.bucket));
    }
  }

  lemma StepKeepsDebtCached(cfg: Config, slot: Slot, e: Event)
    requires Positive(cfg) && Refillable(cfg) && Steady(cfg, e) && Sound(cfg, slot, e.env.now)
    requires Lookup(slot, e.env.now, false).Held?
    ensures var after := LeakyStep(EXACT, false, slot, e.r, e.env).slot; InDebt(after) ==> RefillsInTime(cfg, after)
  {
    hide Ms, Time, Balance, LeakyStep, RefillAt, Prompt;
    var after := LeakyStep(EXACT, false, slot, e.r, e.env).slot;
    if InDebt(after) {
      BalanceAtMostBurst(cfg, slot, e.env.now);
      if InDebt(slot) {
        StepRefillsInTime(cfg, slot, e);
        StepSpends(cfg, slot, e);
        if Drains(cfg, slot, e) {
          DrainedToZero(cfg, slot, e);
          BalanceNow(cfg, after.bucket.remaining, e.env.now, after.expireAt);
        }
      } else {
        StepExpiry(EXACT, cfg, false, slot, e);
      }
    }
  }

  lemma StepIsSound(cfg: Config, slot: Slot, e: Event)
    requires Positive(cfg) && Refillable(cfg) && Steady(cfg, e) && Fitting(cfg, e) && Sound(cfg, slot, e.env.now)
    ensures Sound(cfg, LeakyStep(EXACT, false, slot, e.r, e.env).slot, e.env.now)
  {
    hide Ms, Balance, ExistingStep, RefillAt, Ceil, RefillsInTime;
    if Lookup(slot, e.env.now, false).Held? {
      StepSpends(cfg, slot, e);
      StepIsPrompt(cfg, slot, e);
      StepKeepsDebtCached(cfg, slot, e);
      StepFromBalance(EXACT, cfg, false, slot, e);
    }
  }

  // ----- Slots that no later request can tell apart -----

  /** The same expiry, and stored in debt or not alike. */
  predicate Level(x: Slot, y: Slot) {
    x.Held? && y.Held? && x.expireAt == y.expireAt && (InDebt(x) <==> InDebt(y))
  }

  /** The key is kept until it is full, and no drain can change that from now on. */
  ghost predicate Safe(cfg: Config, z: Slot, now: int)
    requires Positive(cfg)
  {
    && RefillsInTime(cfg, z)
    && (InDebt(z) ==> 0.0 <= Balance(cfg, z, now) && forall t :: now <= t ==> !CanDrain(cfg, z, t))
  }

  ghost predicate Twins(cfg: Config, x: Slot, y: Slot, now: int)
    requires Positive(cfg)
  {
    && Sound(cfg, x, now) && Sound(cfg, y, now) && Alike(cfg, x, y, now)
    && (Level(x, y) || (Safe(cfg, x, now) && Safe(cfg, y, now)))
  }

  /** A slot as a lookup returns it. */
  predicate Fresh(x: Slot, now: int) {
    x.Held? ==> now <= x.expireAt
  }

  lemma SameAreTwins(cfg: Config, z: Slot, now: int)
    requires Positive(cfg) && Sound(cfg, z, now)
    ensures Twins(cfg, z, z, now)
  {
  }

  lemma SoundLater(cfg: Config, z: Slot, now: int, later: int)
    requires Positive(cfg) && Sound(cfg, z, now) && now <= later
    ensures Sound(cfg, Lookup(z, later, false), later)
  {
    hide RefillAt, Ceil, RefillsInTime;
  }

  lemma SafeLater(cfg: Config, z: Slot, now: int, later: int)
    requires Positive(cfg) && Fits(cfg, z, now) && Safe(cfg, z, now) && now <= later
    ensures Safe(cfg, Lookup(z, later, false), later)
    ensures Balance(cfg, Lookup(z, later, false), later) == Balance(cfg, z, later)
  {
    hide Balance, Ms, RefillAt, CanDrain;
    ExpiredIsFull(cfg, z, later);
    BalanceLater(cfg, z, now, later);
    TimeOfLeak(cfg, (later - now) as real);
    MsPositive(cfg);
  }

  lemma TwinsLater(cfg: Config, x: Slot, y: Slot, now: int, later: int)
    requires Positive(cfg) && Twins(cfg, x, y, now) && now <= later
    ensures Twins(cfg, Lookup(x, later, false), Lookup(y, later, false), later)
  {
    hide Balance, Ms, Prompt, RefillsInTime, Safe;
    SoundLater(cfg, x, now, later);
    SoundLater(cfg, y, now, later);
    AlikeLater(cfg, x, y, now, later);
    if Level(x, y) {
      if x.expireAt < later {
        SameAreTwins(cfg, Empty, later);
      }
    } else {
      SafeLater(cfg, x, now, later);
      SafeLater(cfg, y, now, later);
    }
  }

  lemma LevelSteps(cfg: Config, x: Slot, y: Slot, e: Event)
    requires Positive(cfg) && Steady(cfg, e) && Alike(cfg, x, y, e.env.now) && Level(x, y) && Fresh(x, e.env.now)
    ensures LeakyStep(EXACT, false, x, e.r, e.env) == LeakyStep(EXACT, false, y, e.r, e.env)
  {
    hide Balance, Ms, Count, LeakyStep, ExtendExpiry;
    StepFromLevel(EXACT, cfg, false, x, e);
    StepFromLevel(EXACT, cfg, false, y, e);
  }

  lemma SafeNeverDrains(cfg: Config, z: Slot, e: Event)
    requires Positive(cfg) && Safe(cfg, z, e.env.now) && Fitting(cfg, e)
    ensures !Drains(cfg, z, e)
  {
    hide Balance, Time, RefillsInTime;
    assert InDebt(z) ==> !CanDrain(cfg, z, e.env.now);
  }

  lemma DebtRefillsLast(cfg: Config, b: Bucket, now: int)
    requires Positive(cfg) && b.updatedAt == now && b.remaining < 0.0
    ensures Ceil(now as real + Time(cfg, cfg.burst as real)) <= Ceil(RefillAt(cfg, b))
  {
    hide Time, Ceil;
    TimeGrows(cfg, cfg.burst as real, cfg.burst as real - b.remaining);
    CeilGrows(now as real + Time(cfg, cfg.burst as real), RefillAt(cfg, b));
  }

  /** A booking on a key that owes nothing is cached for a duration or until it is full. */
  lemma BookedExpiry(cfg: Config, z: Slot, e: Event)
    requires Positive(cfg) && Refillable(cfg) && Steady(cfg, e) && Sound(cfg, z, e.env.now)
    requires z.Held? && Fresh(z, e.env.now) && 0.0 <= Balance(cfg, z, e.env.now)
    requires InDebt(LeakyStep(EXACT, false, z, e.r, e.env).slot)
    ensures var after := LeakyStep(EXACT, false, z, e.r, e.env).slot;
            after.expireAt == Max(e.env.now + cfg.duration, Ceil(RefillAt(cfg, after.bucket)))
  {
    hide Balance, Ms, Count, LeakyStep, RefillAt, Ceil, FullAt, RefillsInTime;
    var level := Balance(cfg, z, e.env.now);
    StepSpends(cfg, z, e);
    BalanceAtMostBurst(cfg, z, e.env.now);
    StepFromLevel(EXACT, cfg, false, z, e);
    CountCases(EXACT, cfg, level, e, z.bucket.remaining < 0.0);
    PromptOnceRepaid(cfg, z, e.env.now);
    DebtRefillsLast(cfg, LeakyStep(EXACT, false, z, e.r, e.env).slot.bucket, e.env.now);
    FullIsRefill(cfg, LeakyStep(EXACT, false, z, e.r, e.env).slot.bucket);
  }

  lemma NewOwesNothing(e: Event)
    requires e.r.maxWait > 0 || e.r.hits <= RequestBurst(e.r)
    requires RequestBurst(e.r) >= 0 && !e.r.gregorian
    ensures !InDebt(NewStep(e.r, e.env).slot)
  {
  }

  lemma SafeLevel(cfg: Config, z: Slot, now: int)
    requires Positive(cfg) && Safe(cfg, z, now)
    ensures 0.0 <= Balance(cfg, z, now)
  {
    hide Balance, CanDrain, RefillsInTime;
    BalanceAtMostBurst(cfg, z, now);
    if z.Empty? {
      EmptyIsFull(cfg, now);
    }
  }

  lemma SafeStep(cfg: Config, z: Slot, e: Event)
    requires Positive(cfg) && Refillable(cfg) && Steady(cfg, e) && Fitting(cfg, e)
    requires Sound(cfg, z, e.env.now) && Fresh(z, e.env.now) && Safe(cfg, z, e.env.now)
    ensures var after := LeakyStep(EXACT, false, z, e.r, e.env).slot;
            && RefillsInTime(cfg, after)
            && (InDebt(after) ==>
                  && z.Held? && after.bucket == BucketAt(cfg, after.bucket.remaining, e.env.now)
                  && after.expireAt == Max(e.env.now + cfg.duration, Ceil(RefillAt(cfg, after.bucket))))
  {
    hide Balance, Ms, LeakyStep, RefillAt, Ceil, RefillsInTime, CanDrain, Prompt, NewStep;
    SafeNeverDrains(cfg, z, e);
    SafeLevel(cfg, z, e.env.now);
    StepRefillsInTime(cfg, z, e);
    if z.Empty? {
      NewOwesNothing(e);
      EmptyStep(e);
    } else if InDebt(LeakyStep(EXACT, false, z, e.r, e.env).slot) {
      BookedExpiry(cfg, z, e);
      StepSpends(cfg, z, e);
    }
  }

  lemma InDebtShows(cfg: Config, z: Slot, now: int)
    requires Positive(cfg) && z.Held? && z.bucket == BucketAt(cfg, z.bucket.remaining, now) && InDebt(z)
    ensures Balance(cfg, z, now) == z.bucket.remaining
  {
    BalanceNow(cfg, z.bucket.remaining, now, z.expireAt);
  }

  /** Two slots that are both safe stay so, or become one. */
  lemma SafeSteps(cfg: Config, x: Slot, y: Slot, e: Event)
    requires Positive(cfg) && Refillable(cfg) && Steady(cfg, e) && Fitting(cfg, e)
    requires Twins(cfg, x, y, e.env.now) && Fresh(x, e.env.now) && Fresh(y, e.env.now)
    requires Safe(cfg, x, e.env.now) && Safe(cfg, y, e.env.now)
    ensures var x', y' := LeakyStep(EXACT, false, x, e.r, e.env), LeakyStep(EXACT, false, y, e.r, e.env);
            x'.answer == y'.answer && Twins(cfg, x'.slot, y'.slot, e.env.now)
  {
    hide Balance, Ms, LeakyStep, RefillAt, Ceil, RefillsInTime, CanDrain, Prompt, Steady, Fitting;
    var now := e.env.now;
    var x', y' := LeakyStep(EXACT, false, x, e.r, e.env).slot, LeakyStep(EXACT, false, y, e.r, e.env).slot;
    AlikeSteps(EXACT, cfg, false, x, false, y, e);
    StepIsSound(cfg, x, e);
    StepIsSound(cfg, y, e);
    SafeStep(cfg, x, e);
    SafeStep(cfg, y, e);
    BalanceAtMostBurst(cfg, x', now);
    BalanceAtMostBurst(cfg, y', now);
    if InDebt(x') {
      InDebtShows(cfg, x', now);
    }
    if InDebt(y') {
      InDebtShows(cfg, y', now);
    }
    if x'.Empty? || y'.Empty? {
      EmptyIsFull(cfg, now);
    }
  }

  /** Twins are answered alike and stay twins. */
  lemma TwinsStep(cfg: Config, x: Slot, y: Slot, e: Event)
    requires Positive(cfg) && Refillable(cfg) && Steady(cfg, e) && Fitting(cfg, e)
    requires Twins(cfg, x, y, e.env.now) && Fresh(x, e.env.now) && Fresh(y, e.env.now)
    ensures var x', y' := LeakyStep(EXACT, false, x, e.r, e.env), LeakyStep(EXACT, false, y, e.r, e.env);
            x'.answer == y'.answer && Twins(cfg, x'.slot, y'.slot, e.env.now)
  {
    hide LeakyStep, Sound, Alike, Safe, Steady, Fitting;
    if Level(x, y) {
      LevelSteps(cfg, x, y, e);
      StepIsSound(cfg, x, e);
      SameAreTwins(cfg, LeakyStep(EXACT, false, x, e.r, e.env).slot, e.env.now);
    } else {
      SafeSteps(cfg, x, y, e);
    }
  }

  // ----- A query -----

  /** A query leaves balance and expiry alone, and a debt it finds repaid is one no more. */
  lemma QueryStores(cfg: Config, x: Slot, q: Event)
    requires Positive(cfg) && Steady(cfg, q) && q.r.hits == 0 && Fits(cfg, x, q.env.now) && Fresh(x, q.env.now)
    ensures var after := LeakyStep(EXACT, false, x, q.r, q.env).slot;
            && after.Held? && Alike(cfg, x, after, q.env.now)
            && (InDebt(after) <==> Balance(cfg, x, q.env.now) < 0.0)
            && after.expireAt == if x.Held? then x.expireAt else q.env.now + cfg.duration
  {
    hide Balance, Ms, Count, ExistingStep, ExtendExpiry;
    StepFromBalance(EXACT, cfg, false, x, q);
    BalanceAtMostBurst(cfg, x, q.env.now);
    CountCases(EXACT, cfg, Balance(cfg, x, q.env.now), q, false);
    if x.Held? {
      StepFromLevel(EXACT, cfg, false, x, q);
      CountCases(EXACT, cfg, Balance(cfg, x, q.env.now), q, x.bucket.remaining < 0.0);
      QueryExtendsNothing(cfg, Balance(cfg, x, q.env.now), q, x.bucket.remaining < 0.0);
    } else {
      EmptyIsFull(cfg, q.env.now);
    }
  }

  lemma QueryExtendsNothing(cfg: Config, level: real, q: Event, wasInDebt: bool)
    requires Positive(cfg) && q.r.hits == 0
    ensures !Count(EXACT, cfg, level, q, wasInDebt).extend
  {
  }

  lemma CanDrainAlike(cfg: Config, x: Slot, y: Slot, now: int, t: int)
    requires Positive(cfg) && Alike(cfg, x, y, now) && Level(x, y) && now <= t
    ensures CanDrain(cfg, x, t) <==> CanDrain(cfg, y, t)
  {
    hide Balance, Time, Ms;
    AlikeLater(cfg, x, y, now, t);
  }

  /** A query that is not telling leaves a twin. */
  lemma QuietQuery(cfg: Config, x: Slot, y: Slot, q: Event)
    requires Positive(cfg) && Refillable(cfg) && Steady(cfg, q) && q.r.hits == 0
    requires Twins(cfg, x, y, q.env.now) && Fresh(x, q.env.now) && Fresh(y, q.env.now)
    requires !Telling(cfg, x, q.env.now)
    ensures Twins(cfg, LeakyStep(EXACT, false, x, q.r, q.env).slot, y, q.env.now)
  {
    hide Balance, Ms, LeakyStep, RefillAt, Ceil, RefillsInTime, CanDrain, Prompt;
    var now, after := q.env.now, LeakyStep(EXACT, false, x, q.r, q.env).slot;
    QueryStores(cfg, x, q);
    StepIsSound(cfg, x, q);
    BalanceAtMostBurst(cfg, x, now);
    if Safe(cfg, x, now) && Safe(cfg, y, now) {
      QueryStaysSafe(cfg, x, q);
    } else if InDebt(x) && 0.0 <= Balance(cfg, x, now) {
      forall t | now <= t
        ensures !CanDrain(cfg, x, t) && !CanDrain(cfg, y, t)
      {
        CanDrainAlike(cfg, x, y, now, t);
      }
      QueryStaysSafe(cfg, x, q);
    }
  }

  lemma QueryStaysSafe(cfg: Config, x: Slot, q: Event)
    requires Positive(cfg) && Refillable(cfg) && Steady(cfg, q) && q.r.hits == 0
    requires Fits(cfg, x, q.env.now) && Fresh(x, q.env.now) && Safe(cfg, x, q.env.now)
    ensures Safe(cfg, LeakyStep(EXACT, false, x, q.r, q.env).slot, q.env.now)
  {
    hide Balance, Ms, LeakyStep, RefillAt, RefillsInTime, CanDrain;
    QueryStores(cfg, x, q);
    SafeLevel(cfg, x, q.env.now);
    SafeNeverDrains(cfg, x, q);
    StepRefillsInTime(cfg, x, q);
  }

  // ----- Everything that may follow -----

  /** Requests within the burst, from now on. */
  ghost predicate MayFollow(cfg: Config, events: seq<Event>, now: int) {
    && SteadyRun(cfg, events)
    && forall i :: 0 <= i < |events| ==> Fitting(cfg, events[i]) && now <= events[i].env.now
  }

  function LastAnswer(slot: Slot, events: seq<Event>): Answer
    requires events != []
  {
    var last := events[|events| - 1];
    LeakyStep(EXACT, false, RunFrom(EXACT, false, slot, events[..|events| - 1]), last.r, last.env).answer
  }

  /** No request that may follow, after whatever others, is answered differently. */
  ghost predicate SameFrom(cfg: Config, x: Slot, y: Slot, now: int) {
    forall events :: MayFollow(cfg, events, now) && events != [] ==> LastAnswer(x, events) == LastAnswer(y, events)
  }

  lemma StepLooksUp(x: Slot, e: Event)
    ensures LeakyStep(EXACT, false, x, e.r, e.env) ==
            LeakyStep(EXACT, false, Lookup(x, e.env.now, false), e.r, e.env)
  {
    hide NewStep, ExistingStep;
  }

  lemma TwinsAtStep(cfg: Config, x: Slot, y: Slot, before: int, e: Event)
    requires Positive(cfg) && Refillable(cfg) && Steady(cfg, e) && Fitting(cfg, e)
    requires Twins(cfg, x, y, before) && before <= e.env.now
    ensures var x', y' := LeakyStep(EXACT, false, x, e.r, e.env), LeakyStep(EXACT, false, y, e.r, e.env);
            x'.answer == y'.answer && Twins(cfg, x'.slot, y'.slot, e.env.now)
  {
    hide LeakyStep, Twins, Steady, Fitting;
    TwinsLater(cfg, x, y, before, e.env.now);
    StepLooksUp(x, e);
    StepLooksUp(y, e);
    TwinsStep(cfg, Lookup(x, e.env.now, false), Lookup(y, e.env.now, false), e);
  }

  lemma MayFollowInit(cfg: Config, events: seq<Event>, now: int)
    requires MayFollow(cfg, events, now) && events != []
    ensures MayFollow(cfg, events[..|events| - 1], now)
  {
    hide Steady, Fitting;
  }

  lemma {:induction false} TwinsRun(cfg: Config, x: Slot, y: Slot, now: int, events: seq<Event>)
    requires Positive(cfg) && Refillable(cfg) && Twins(cfg, x, y, now) && MayFollow(cfg, events, now)
    ensures var last := if events == [] then now else events[|events| - 1].env.now;
            Twins(cfg, RunFrom(EXACT, false, x, events), RunFrom(EXACT, false, y, events), last)
    ensures events != [] ==> LastAnswer(x, events) == LastAnswer(y, events)
  {
    hide LeakyStep, Twins, Steady, Fitting;
    if events == [] {
    } else {
      var n := |events| - 1;
      var init := events[..n];
      MayFollowInit(cfg, events, now);
      TwinsRun(cfg, x, y, now, init);
      var before := if init == [] then now else init[n - 1].env.now;
      TwinsAtStep(cfg, RunFrom(EXACT, false, x, init), RunFrom(EXACT, false, y, init), before, events[n]);
    }
  }

  // ----- When a query does show -----

  /** The drain moves the expiry of the key that was asked, and leaves the other's alone. */
  lemma DrainAfterQuery(cfg: Config, slot: Slot, q: Event, e: Event)
    requires Positive(cfg) && Refillable(cfg) && Steady(cfg, q) && q.r.hits == 0 && Steady(cfg, e)
    requires Fitting(cfg, e)
    requires Fits(cfg, slot, q.env.now) && q.env.now <= e.env.now && Drains(cfg, slot, e)
    requires 0.0 <= Balance(cfg, slot, q.env.now)
    ensures var asked := LeakyStep(EXACT, false, slot, q.r, q.env).slot;
            var y := LeakyStep(EXACT, false, asked, e.r, e.env).slot;
            Fits(cfg, y, e.env.now) && y.Held? && y.expireAt == e.env.now + cfg.duration &&
            Balance(cfg, y, e.env.now) == 0.0
  {
    hide Balance, Ms, Time, Count, LeakyStep, ExtendExpiry;
    var asked := LeakyStep(EXACT, false, slot, q.r, q.env).slot;
    QueryStores(cfg, slot, q);
    AlikeLater(cfg, slot, asked, q.env.now, e.env.now);
    BalanceAtMostBurst(cfg, asked, e.env.now);
    StepFromLevel(EXACT, cfg, false, asked, e);
    CountCases(EXACT, cfg, Balance(cfg, asked, e.env.now), e, false);
    BalanceNow(cfg, 0.0, e.env.now, e.env.now + cfg.duration);
  }

  /** A query on a debt that has been repaid, and then a drain past the expiry it left: a whole burst
      right after that expiry is refused to the key that was asked, and admitted to the other. */
  lemma DrainTellsQuery(cfg: Config, slot: Slot, q: Event, e: Event)
    requires Positive(cfg) && Refillable(cfg) && Steady(cfg, q) && q.r.hits == 0 && Steady(cfg, e)
    requires Fitting(cfg, e)
    requires Fits(cfg, slot, q.env.now) && q.env.now <= e.env.now && Drains(cfg, slot, e)
    requires 0.0 <= Balance(cfg, slot, q.env.now)
    ensures var f := WholeBurst(cfg, slot.expireAt + 1);
            var asked := LeakyStep(EXACT, false, slot, q.r, q.env).slot;
            var x := LeakyStep(EXACT, false, slot, e.r, e.env).slot;
            var y := LeakyStep(EXACT, false, asked, e.r, e.env).slot;
            var a, a' := LeakyStep(EXACT, false, x, f.r, f.env).answer, LeakyStep(EXACT, false, y, f.r, f.env).answer;
            a.Answer? && a.status == UnderLimit && a'.Answer? && a'.status == OverLimit
  {
    hide Balance, Ms, Time, LeakyStep;
    var f := WholeBurst(cfg, slot.expireAt + 1);
    var asked := LeakyStep(EXACT, false, slot, q.r, q.env).slot;
    var x, y := LeakyStep(EXACT, false, slot, e.r, e.env).slot, LeakyStep(EXACT, false, asked, e.r, e.env).slot;
    DrainedToZero(cfg, slot, e);
    DroppedIsFull(x, f);
    DrainAfterQuery(cfg, slot, q, e);
    NotYetFull(cfg, y, e.env.now, f.env.now);
    RefinesReference(cfg, false, y, f);
  }

  lemma TwoMayFollow(cfg: Config, e: Event, f: Event, now: int)
    requires Steady(cfg, e) && Steady(cfg, f) && Fitting(cfg, e) && Fitting(cfg, f) && now <= e.env.now <= f.env.now
    ensures MayFollow(cfg, [e, f], now)
  {
    hide Steady, Fitting;
  }

  lemma LastOfTwo(x: Slot, e: Event, f: Event)
    ensures LastAnswer(x, [e, f]) ==
            LeakyStep(EXACT, false, LeakyStep(EXACT, false, x, e.r, e.env).slot, f.r, f.env).answer
  {
    hide LeakyStep;
    assert [e, f][..1] == [e] && [e][..0] == [];
    assert RunFrom(EXACT, false, x, []) == x;
    assert RunFrom(EXACT, false, x, [e]) == LeakyStep(EXACT, false, x, e.r, e.env).slot;
  }

  lemma TellingTells(cfg: Config, slot: Slot, q: Event)
    requires Positive(cfg) && Refillable(cfg) && Steady(cfg, q) && q.r.hits == 0
    requires Fits(cfg, slot, q.env.now) && Telling(cfg, slot, q.env.now)
    ensures !SameFrom(cfg, slot, LeakyStep(EXACT, false, slot, q.r, q.env).slot, q.env.now)
  {
    hide Balance, Ms, Time, LeakyStep, LastAnswer;
    var asked := LeakyStep(EXACT, false, slot, q.r, q.env).slot;
    var t :| q.env.now <= t && CanDrain(cfg, slot, t);
    var e, f := PlainAsk(cfg, cfg.burst, t, true), WholeBurst(cfg, slot.expireAt + 1);
    DrainTellsQuery(cfg, slot, q, e);
    TwoMayFollow(cfg, e, f, q.env.now);
    LastOfTwo(slot, e, f);
    LastOfTwo(asked, e, f);
    var later := [e, f];
    assert MayFollow(cfg, later, q.env.now) && later != [] && LastAnswer(slot, later) != LastAnswer(asked, later);
  }

  /** Among requests within the burst, a query changes some later answer if and only if it finds a stored
      debt repaid, with time left for a drain past the expiry that debt left behind. */
  lemma QueryIsSeenWithinBurstIff(cfg: Config, slot: Slot, q: Event)
    requires Positive(cfg) && Refillable(cfg) && Steady(cfg, q) && q.r.hits == 0 && Sound(cfg, slot, q.env.now)
    ensures SameFrom(cfg, slot, LeakyStep(EXACT, false, slot, q.r, q.env).slot, q.env.now) <==>
            !Telling(cfg, slot, q.env.now)
  {
    hide LeakyStep, Sound, Twins, MayFollow, LastAnswer, Telling, Steady, SameFrom, Fits;
    SoundFits(cfg, slot, q.env.now);
    if Telling(cfg, slot, q.env.now) {
      TellingTells(cfg, slot, q);
    } else {
      QuietIsSame(cfg, slot, q);
    }
  }

  lemma SoundFits(cfg: Config, slot: Slot, now: int)
    requires Positive(cfg) && Sound(cfg, slot, now)
    ensures Fits(cfg, slot, now)
  {
  }

  /** Runs start from what a lookup finds. */
  lemma {:induction false} RunFromLookup(cfg: Config, slot: Slot, now: int, events: seq<Event>)
    requires MayFollow(cfg, events, now) && events != []
    ensures RunFrom(EXACT, false, slot, events) == RunFrom(EXACT, false, Lookup(slot, now, false), events)
    ensures LastAnswer(slot, events) == LastAnswer(Lookup(slot, now, false), events)
  {
    hide LeakyStep, Steady, Fitting;
    var n := |events| - 1;
    if n == 0 {
      StepLooksUp(slot, events[0]);
      StepLooksUp(Lookup(slot, now, false), events[0]);
    } else {
      MayFollowInit(cfg, events, now);
      RunFromLookup(cfg, slot, now, events[..n]);
    }
  }

  lemma QuietIsSame(cfg: Config, slot: Slot, q: Event)
    requires Positive(cfg) && Refillable(cfg) && Steady(cfg, q) && q.r.hits == 0 && Sound(cfg, slot, q.env.now)
    requires !Telling(cfg, slot, q.env.now)
    ensures SameFrom(cfg, slot, LeakyStep(EXACT, false, slot, q.r, q.env).slot, q.env.now)
  {
    hide LeakyStep, Sound, Twins, MayFollow, LastAnswer, Steady, CanDrain, Balance;
    var now := q.env.now;
    var found, asked := Lookup(slot, now, false), LeakyStep(EXACT, false, slot, q.r, q.env).slot;
    SoundLater(cfg, slot, now, now);
    SameAreTwins(cfg, found, now);
    StepLooksUp(slot, q);
    QuietQuery(cfg, found, found, q);
    forall events | MayFollow(cfg, events, now) && events != []
      ensures LastAnswer(slot, events) == LastAnswer(asked, events)
    {
      RunFromLookup(cfg, slot, now, events);
      TwinsRun(cfg, asked, found, now, events);
    }
  }

  /** Every run leaves a slot the above speaks of. */
  lemma {:induction false} RunIsSound(cfg: Config, events: seq<Event>, now: int)
    requires Positive(cfg) && Refillable(cfg) && SteadyRun(cfg, events)
    requires forall i :: 0 <= i < |events| ==> Fitting(cfg, events[i]) && events[i].env.now <= now
    ensures Sound(cfg, Run(EXACT, false, events), now)
  {
    hide LeakyStep, Steady, Fitting, Prompt, RefillsInTime;
    if events == [] {
      EmptyIsSound(cfg, now);
    } else {
      var n := |events| - 1;
      RunIsSound(cfg, events[..n], events[n].env.now);
      StepIsSound(cfg, Run(EXACT, false, events[..n]), events[n]);
    }
  }

  lemma EmptyIsSound(cfg: Config, now: int)
    requires Positive(cfg)
    ensures Sound(cfg, Empty, now)
  {
  }

  /** Whether a query is telling shows in the last millisecond before the key is full. */
  lemma TellingIff(cfg: Config, slot: Slot, now: int)
    requires Positive(cfg) && Fits(cfg, slot, now) && RefillsInTime(cfg, slot)
    ensures Telling(cfg, slot, now) <==>
            && InDebt(slot) && 0.0 <= Balance(cfg, slot, now)
            && var last := Ceil(RefillAt(cfg, slot.bucket)) - 1;
            now <= last && CanDrain(cfg, slot, last)
  {
    hide Balance, RefillAt, Ms, Time;
    if Telling(cfg, slot, now) {
      var t :| now <= t && CanDrain(cfg, slot, t);
      var last := Ceil(RefillAt(cfg, slot.bucket)) - 1;
      PartialUntilRefill(cfg, slot, now, t);
      PartialUntilRefill(cfg, slot, now, last);
      BalanceLater(cfg, slot, t, last);
      MsPositive(cfg);
      TimeOfLeak(cfg, (last - t) as real);
    }
  }

  /** A key is not full exactly until its refill. */
  lemma PartialUntilRefill(cfg: Config, slot: Slot, now: int, t: int)
    requires Positive(cfg) && slot.Held? && Fits(cfg, slot, now) && now <= t
    ensures Balance(cfg, slot, t) < cfg.burst as real <==> t as real < RefillAt(cfg, slot.bucket)
  {
    hide Ms, Time;
    MsPositive(cfg);
    var b := slot.bucket;
    var leak := (t - b.updatedAt) as real / Ms(cfg);
    TimeOfLeak(cfg, (t - b.updatedAt) as real);
    if leak < cfg.burst as real - b.remaining {
      TimeGrows(cfg, leak, cfg.burst as real - b.remaining);
    } else {
      TimeGrows(cfg, cfg.burst as real - b.remaining, leak);
    }
  }

  // ----- Polling over whole runs -----

  /** None of the queries left out is telling. */
  ghost predicate QuietDrops(cfg: Config, events: seq<Event>, drop: seq<bool>)
    requires Positive(cfg) && |drop| == |events|
  {
    forall n :: 0 <= n < |events| && drop[n] ==> !Telling(cfg, Run(EXACT, false, events[..n]), events[n].env.now)
  }

  lemma QuietInit(cfg: Config, events: seq<Event>, drop: seq<bool>)
    requires Positive(cfg) && Thinnable(cfg, events, drop) && QuietDrops(cfg, events, drop) && events != []
    ensures var n := |events| - 1; Thinnable(cfg, events[..n], drop[..n]) && QuietDrops(cfg, events[..n], drop[..n])
  {
    hide Telling, Steady, Fitting;
    var n := |events| - 1;
    forall m | 0 <= m < n && drop[..n][m]
      ensures !Telling(cfg, Run(EXACT, false, events[..n][..m]), events[..n][m].env.now)
    {
      assert events[..n][..m] == events[..m];
    }
  }

  lemma EmptyAreTwins(cfg: Config, now: int)
    requires Positive(cfg)
    ensures Twins(cfg, Empty, Empty, now)
  {
    SameAreTwins(cfg, Empty, now);
  }

  /** Twins but for what a lookup at some moment finds expired. */
  ghost predicate TwinsFound(cfg: Config, x: Slot, y: Slot, now: int)
    requires Positive(cfg)
  {
    Twins(cfg, Lookup(x, now, false), Lookup(y, now, false), now)
  }

  lemma FoundLater(cfg: Config, x: Slot, y: Slot, now: int, later: int)
    requires Positive(cfg) && TwinsFound(cfg, x, y, now) && now <= later
    ensures TwinsFound(cfg, x, y, later)
  {
    hide Twins;
    TwinsLater(cfg, Lookup(x, now, false), Lookup(y, now, false), now, later);
  }

  lemma {:induction false} ThinnedRunIsTwin(cfg: Config, events: seq<Event>, drop: seq<bool>, now: int)
    requires Positive(cfg) && Refillable(cfg) && Thinnable(cfg, events, drop) && QuietDrops(cfg, events, drop)
    requires events != [] ==> events[|events| - 1].env.now <= now
    ensures TwinsFound(cfg, Run(EXACT, false, events), Run(EXACT, false, Thin(events, drop)), now)
  {
    hide LeakyStep, Twins, Steady, Fitting, Telling, TwinsFound;
    if events == [] {
      EmptyFound(cfg, now);
    } else {
      var n := |events| - 1;
      var e, init, marks := events[n], events[..n], drop[..n];
      QuietInit(cfg, events, drop);
      ThinnedRunIsTwin(cfg, init, marks, e.env.now);
      var full, thin := Run(EXACT, false, init), Run(EXACT, false, Thin(init, marks));
      assert init + [e] == events;
      RunExtends(EXACT, false, init, e);
      if drop[n] {
        assert Thin(events, drop) == Thin(init, marks);
        FoundQuery(cfg, full, thin, e);
      } else {
        RunExtends(EXACT, false, Thin(init, marks), e);
        FoundStep(cfg, full, thin, e);
      }
      FoundLater(cfg, Run(EXACT, false, events), Run(EXACT, false, Thin(events, drop)), e.env.now, now);
    }
  }

  lemma EmptyFound(cfg: Config, now: int)
    requires Positive(cfg)
    ensures TwinsFound(cfg, Empty, Empty, now)
  {
    hide Twins;
    EmptyAreTwins(cfg, now);
  }

  lemma FoundStep(cfg: Config, x: Slot, y: Slot, e: Event)
    requires Positive(cfg) && Refillable(cfg) && Steady(cfg, e) && Fitting(cfg, e)
    requires TwinsFound(cfg, x, y, e.env.now)
    ensures var x', y' := LeakyStep(EXACT, false, x, e.r, e.env), LeakyStep(EXACT, false, y, e.r, e.env);
            x'.answer == y'.answer && TwinsFound(cfg, x'.slot, y'.slot, e.env.now)
  {
    hide LeakyStep, Twins, Steady, Fitting;
    StepLooksUp(x, e);
    StepLooksUp(y, e);
    TwinsStep(cfg, Lookup(x, e.env.now, false), Lookup(y, e.env.now, false), e);
    var x', y' := LeakyStep(EXACT, false, x, e.r, e.env).slot, LeakyStep(EXACT, false, y, e.r, e.env).slot;
    TwinsLater(cfg, x', y', e.env.now, e.env.now);
  }

  lemma FoundQuery(cfg: Config, x: Slot, y: Slot, q: Event)
    requires Positive(cfg) && Refillable(cfg) && Steady(cfg, q) && q.r.hits == 0
    requires TwinsFound(cfg, x, y, q.env.now)
    requires !Telling(cfg, x, q.env.now)
    ensures TwinsFound(cfg, LeakyStep(EXACT, false, x, q.r, q.env).slot, y, q.env.now)
  {
    hide LeakyStep, Twins, Steady, CanDrain, Balance;
    var now := q.env.now;
    StepLooksUp(x, q);
    QuietQuery(cfg, Lookup(x, now, false), Lookup(y, now, false), q);
    TwinsLater(cfg, LeakyStep(EXACT, false, x, q.r, q.env).slot, Lookup(y, now, false), now, now);
  }

  /** Polling changes nothing, drains or not, as long as no query left out finds a debt repaid with
      time left for a drain past its expiry. */
  lemma PollingChangesNothing(cfg: Config, events: seq<Event>, drop: seq<bool>, e: Event)
    requires Positive(cfg) && Refillable(cfg) && Thinnable(cfg, events + [e], drop + [false])
    requires |drop| == |events| && QuietDrops(cfg, events, drop)
    ensures LeakyStep(EXACT, false, Run(EXACT, false, events), e.r, e.env).answer ==
            LeakyStep(EXACT, false, Run(EXACT, false, Thin(events, drop)), e.r, e.env).answer
  {
    hide LeakyStep, Twins, TwinsFound, Steady, Fitting, Telling;
    ThinnableInit(cfg, events, drop, e);
    ThinnedRunIsTwin(cfg, events, drop, e.env.now);
    FoundStep(cfg, Run(EXACT, false, events), Run(EXACT, false, Thin(events, drop)), e);
  }

  lemma ThinnableInit(cfg: Config, events: seq<Event>, drop: seq<bool>, e: Event)
    requires |drop| == |events| && Thinnable(cfg, events + [e], drop + [false])
    ensures Thinnable(cfg, events, drop) && Steady(cfg, e) && Fitting(cfg, e)
    ensures events != [] ==> events[|events| - 1].env.now <= e.env.now
  {
    hide Steady, Fitting;
    var all, marks := events + [e], drop + [false];
    assert forall i :: 0 <= i < |events| ==> all[i] == events[i] && marks[i] == drop[i];
    assert all[|events|] == e;
  }

  /** Nor does polling change anything, whatever the queries find, where neither the run nor the run
      without them ever drains past an expiry. */
  lemma UndrainedPollingChangesNothing(cfg: Config, events: seq<Event>, drop: seq<bool>, e: Event)
    requires Positive(cfg) && Refillable(cfg) && Thinnable(cfg, events + [e], drop + [false])
    requires |drop| == |events| && Undrained(cfg, events + [e]) && Undrained(cfg, Thin(events, drop) + [e])
    ensures LeakyStep(EXACT, false, Run(EXACT, false, events), e.r, e.env).answer ==
            LeakyStep(EXACT, false, Run(EXACT, false, Thin(events, drop)), e.r, e.env).answer
  {
    hide LeakyStep, Undrained, Thinnable;
    ExpiryIsInvisible(cfg, events, e);
    KeptPollingChangesNothing(cfg, events, drop, e);
    ExpiryIsInvisible(cfg, Thin(events, drop), e);
  }

  // ----- A query that is seen -----

  /** Ten hits at once, one booked, a drain at 21000 and a whole burst at 66001: admitted, because the
      key expired at 66000; refused, if the status was asked for at 20000. */
  lemma QueryIsSeen()
    ensures var spend, book, drain := Ask(10, 0, 0, false), Ask(1, 0, 60000, false), Ask(5, 21000, 0, true);
            var query, burst := Ask(0, 20000, 0, false), WholeBurst(TEN_A_MINUTE, 66001);
            var a := LeakyStep(EXACT, false, Run(EXACT, false, [spend, book, drain]), burst.r, burst.env).answer;
            var asked := Run(EXACT, false, [spend, book, query, drain]);
            var a' := LeakyStep(EXACT, false, asked, burst.r, burst.env).answer;
            a.Answer? && a.status == UnderLimit && a'.Answer? && a'.status == OverLimit
  {
    hide LeakyStep, DrainsPastExpiry;
    var spend, book, drain := Ask(10, 0, 0, false), Ask(1, 0, 60000, false), Ask(5, 21000, 0, true);
    var query := Ask(0, 20000, 0, false);
    SpentAndBooked();
    ThenDrained();
    EmptyStep(spend);
    RunExtends(EXACT, false, [], spend);
    RunExtends(EXACT, false, [spend], book);
    RunExtends(EXACT, false, [spend, book], drain);
    RunExtends(EXACT, false, [spend, book], query);
    RunExtends(EXACT, false, [spend, book, query], drain);
    assert [] + [spend] == [spend] && [spend] + [book] == [spend, book];
    assert [spend, book] + [drain] == [spend, book, drain] && [spend, book] + [query] == [spend, book, query];
    assert [spend, book, query] + [drain] == [spend, book, query, drain];
    RepaidAt20000();
    DrainTellsQuery(TEN_A_MINUTE, Held(BucketAt(TEN_A_MINUTE, -1.0, 0), 66000), query, drain);
  }

  lemma RepaidAt20000()
    ensures 0.0 <= Balance(TEN_A_MINUTE, Held(BucketAt(TEN_A_MINUTE, -1.0, 0), 66000), 20000)
  {
    assert Ms(TEN_A_MINUTE) == 6000.0;
  }

  // ----- The code as it is -----

  /** The same with the code's tolerances, for a limit under a million in under a billion milliseconds. */
  lemma CodePollingChangesNothing(cfg: Config, events: seq<Event>, drop: seq<bool>, e: Event)
    requires Positive(cfg) && Refillable(cfg) && Thinnable(cfg, events + [e], drop + [false])
    requires |drop| == |events| && cfg.duration < 1_000_000_000 && cfg.limit < 1_000_000
    requires QuietDrops(cfg, events, drop) || (Undrained(cfg, events + [e]) && Undrained(cfg, Thin(events, drop) + [e]))
    ensures AnswerAt(CODE_TOLERANCE, false, events + [e], |events|) ==
            AnswerAt(CODE_TOLERANCE, false, Thin(events, drop) + [e], |Thin(events, drop)|)
  {
    hide LeakyStep, Undrained, QuietDrops, Steady, Fitting;
    var thin := Thin(events, drop);
    ThinIsSteady(cfg, events, drop, e);
    LeakyTolerance.CodeIsExact(cfg, false, events + [e], |events|);
    LeakyTolerance.CodeIsExact(cfg, false, thin + [e], |thin|);
    assert (events + [e])[..|events|] == events && (thin + [e])[..|thin|] == thin;
    if QuietDrops(cfg, events, drop) {
      PollingChangesNothing(cfg, events, drop, e);
    } else {
      UndrainedPollingChangesNothing(cfg, events, drop, e);
    }
  }

  lemma {:induction false} ThinIsSteady(cfg: Config, events: seq<Event>, drop: seq<bool>, e: Event)
    requires |drop| == |events| && SteadyRun(cfg, events + [e])
    ensures SteadyRun(cfg, Thin(events, drop) + [e])
  {
    hide Steady;
    if events == [] {
      assert [] + [e] == (events + [e]);
    } else {
      var n := |events| - 1;
      SteadySkips(cfg, events, e);
      ThinIsSteady(cfg, events[..n], drop[..n], e);
      ThinIsSteady(cfg, events[..n], drop[..n], events[n]);
      if !drop[n] {
        SteadyJoin(cfg, Thin(events[..n], drop[..n]) + [events[n]], e);
      } else {
        assert Thin(events, drop) == Thin(events[..n], drop[..n]);
      }
    }
  }

  lemma SteadySkips(cfg: Config, events: seq<Event>, e: Event)
    requires SteadyRun(cfg, events + [e]) && events != []
    ensures var n := |events| - 1;
            && SteadyRun(cfg, events[..n] + [e]) && SteadyRun(cfg, events[..n] + [events[n]])
            && events[n].env.now <= e.env.now && Steady(cfg, e)
  {
    hide Steady;
    var n := |events| - 1;
    var all := events + [e];
    assert forall i :: 0 <= i < |events| ==> all[i] == events[i];
    assert all[|events|] == e && all[n] == events[n];
  }

  lemma SteadyJoin(cfg: Config, events: seq<Event>, e: Event)
    requires SteadyRun(cfg, events) && Steady(cfg, e) && events != [] && events[|events| - 1].env.now <= e.env.now
    ensures SteadyRun(cfg, events + [e])
  {
    hide Steady;
  }
}
