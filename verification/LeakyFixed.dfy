/**
 One key whose limit, duration and burst do not change: what a step does depends on the stored
 bucket only through its level, the balance brought up to the moment of the request.
 */
module LeakyFixed {
  import opened Numbers
  import opened LeakyBucket

  datatype Config = Config(limit: int, duration: int, burst: int)

  ghost predicate Positive(cfg: Config) {
    cfg.limit > 0 && cfg.duration > 0 && cfg.burst > 0
  }

  /** Milliseconds per token. */
  function Ms(cfg: Config): real
    requires cfg.limit > 0
  {
    cfg.duration as real / cfg.limit as real
  }

  /** The time a number of tokens takes to leak in. */
  function Time(cfg: Config, tokens: real): real
    requires cfg.limit > 0
  {
    tokens * Ms(cfg)
  }

  lemma TimeAdds(cfg: Config, x: real, y: real)
    requires Positive(cfg)
    ensures Time(cfg, x + y) == Time(cfg, x) + Time(cfg, y)
    ensures Time(cfg, x - y) == Time(cfg, x) - Time(cfg, y)
  {
    hide Ms;
  }

  lemma TimeGrows(cfg: Config, x: real, y: real)
    requires Positive(cfg) && x <= y
    ensures Time(cfg, x) <= Time(cfg, y)
    ensures x < y ==> Time(cfg, x) < Time(cfg, y)
    ensures 0.0 <= x ==> 0.0 <= Time(cfg, x)
  {
    hide Ms;
    MsPositive(cfg);
    assert (y - x) * Ms(cfg) >= 0.0;
    assert 0.0 <= x ==> x * Ms(cfg) >= 0.0;
    if x < y {
      assert (y - x) * Ms(cfg) > 0.0;
    }
  }

  /** A checked request of this configuration that takes tokens or asks, on one shared clock. */
  ghost predicate Steady(cfg: Config, e: Event) {
    && e.r.limit == cfg.limit && e.r.duration == cfg.duration && RequestBurst(e.r) == cfg.burst
    && !e.r.gregorian && !e.r.reset && e.r.hits >= 0 && Validated(e.r)
    && e.r.createdAt == e.env.now
  }

  ghost predicate SteadyRun(cfg: Config, events: seq<Event>) {
    ClockRuns(events) && forall i :: 0 <= i < |events| ==> Steady(cfg, events[i])
  }

  /** A plain request of this configuration. */
  function PlainAsk(cfg: Config, hits: int, now: int, drain: bool): Event {
    Event(Request(hits, cfg.limit, cfg.duration, cfg.burst, 0, now, false, false, drain), Env(now, 0, NotACode))
  }

  function WholeBurst(cfg: Config, now: int): Event {
    PlainAsk(cfg, cfg.burst, now, false)
  }

  function BucketAt(cfg: Config, level: real, now: int): Bucket {
    Bucket(cfg.limit, cfg.duration, level, now, cfg.burst)
  }

  /** The bucket is one of this configuration, not credited beyond now. */
  ghost predicate Fits(cfg: Config, slot: Slot, now: int) {
    slot.Held? ==>
      && slot.bucket == BucketAt(cfg, slot.bucket.remaining, slot.bucket.updatedAt)
      && slot.bucket.updatedAt <= now
  }

  /** The balance a continuously leaking bucket would show: an unknown key is full. */
  function Balance(cfg: Config, slot: Slot, now: int): real
    requires cfg.limit > 0 && cfg.duration > 0
  {
    if slot.Empty? then cfg.burst as real
    else MinReal(cfg.burst as real, slot.bucket.remaining + Max(0, now - slot.bucket.updatedAt) as real / Ms(cfg))
  }

  lemma MsPositive(cfg: Config)
    requires Positive(cfg)
    ensures Ms(cfg) > 0.0
    ensures RateOf(cfg.duration, cfg.limit) == PerToken(Ms(cfg))
  {
  }

  /** Settling a steady request is crediting and clamping, nothing else. */
  lemma SettledSteady(tol: Tolerance, cfg: Config, slot: Slot, e: Event)
    requires Sane(tol) && Positive(cfg) && Steady(cfg, e) && slot.Held? && Fits(cfg, slot, e.env.now)
    ensures Clock(slot.bucket, e.r, e.env) == e.env.now
    ensures Settled(tol, slot.bucket, e.r, e.env) ==
            BucketAt(cfg, SnapToZero(tol, Balance(cfg, slot, e.env.now)), e.env.now)
    ensures SettledRate(tol, slot.bucket, e.r, e.env) == PerToken(Ms(cfg))
  {
    hide RateOf, Ms;
    MsPositive(cfg);
    var b := slot.bucket;
    assert !Rescale(b, e.r) && !KeepStored(b, e.r);
    assert NewBurst(tol, b, e.r, e.env.now) == cfg.burst;
    ZeroOver(Ms(cfg));
  }

  lemma ZeroOver(ms: real)
    requires ms > 0.0
    ensures 0.0 / ms == 0.0
  {
  }

  /** Counting the hits of a steady request at a given level. */
  function Count(tol: Tolerance, cfg: Config, level: real, e: Event, wasInDebt: bool): Decision
    requires Positive(cfg)
  {
    CountHits(tol, BucketAt(cfg, level, e.env.now), e.r, e.env, e.env.now, PerToken(Ms(cfg)), wasInDebt)
  }

  /** A step on a known key, from its level alone. */
  lemma StepFromLevel(tol: Tolerance, cfg: Config, keep: bool, slot: Slot, e: Event)
    requires Sane(tol) && Positive(cfg) && Steady(cfg, e) && Fits(cfg, slot, e.env.now)
    requires Lookup(slot, e.env.now, keep).Held?
    ensures var d := Count(tol, cfg, SnapToZero(tol, Balance(cfg, slot, e.env.now)), e, slot.bucket.remaining < 0.0);
            var step := LeakyStep(tol, keep, slot, e.r, e.env);
            && step.answer == d.answer
            && step.slot.Held? && step.slot.bucket == d.bucket
            && step.slot.expireAt ==
                 (var touched := if e.r.hits != 0 && slot.bucket.remaining >= 0.0
                                 then e.env.now + cfg.duration else slot.expireAt;
                  if d.extend
                  then ExtendExpiry(touched, d.bucket, e.env.now, cfg.duration, PerToken(Ms(cfg)))
                  else touched)
  {
    hide Settled, SettledRate, CountHits, RateOf, Ms, Balance;
    SettledSteady(tol, cfg, slot, e);
    SettledBurstSteady(tol, cfg, slot, e);
  }

  lemma SettledBurstSteady(tol: Tolerance, cfg: Config, slot: Slot, e: Event)
    requires Positive(cfg) && Steady(cfg, e) && slot.Held? && Fits(cfg, slot, e.env.now)
    ensures NewBurst(tol, slot.bucket, e.r, e.env.now) == slot.bucket.burst
    ensures !ConfigChanged(slot.bucket, e.r)
  {
    hide DebtAt;
  }

  /** A first request that fits the burst, or that waits, is answered like one that finds the key full. */
  lemma NewLikeFull(tol: Tolerance, cfg: Config, e: Event)
    requires Sane(tol) && Positive(cfg) && Steady(cfg, e)
    requires e.r.maxWait > 0 || e.r.hits <= cfg.burst
    ensures var d := Count(tol, cfg, cfg.burst as real, e, false);
            var step := NewStep(e.r, e.env);
            && step.answer == d.answer
            && (if step.slot.Held? then step.slot == Held(d.bucket, e.env.now + cfg.duration)
                else d.bucket.remaining == cfg.burst as real)
  {
    hide RateOf, Ms;
    MsPositive(cfg);
    WholeIsWhole(tol, cfg.burst);
    WholeIsWhole(tol, cfg.burst - e.r.hits);
  }

  /** A new key's first request leaves the balance it would leave on a full key, except that a plain
      one over the burst empties the key: exactly then do the two differ. */
  lemma FirstRequestIff(tol: Tolerance, cfg: Config, e: Event)
    requires Sane(tol) && Positive(cfg) && Steady(cfg, e)
    ensures var step := NewStep(e.r, e.env);
            var left := if step.slot.Held? then step.slot.bucket.remaining else cfg.burst as real;
            left == Count(tol, cfg, cfg.burst as real, e, false).bucket.remaining <==>
            (e.r.maxWait > 0 || e.r.hits <= cfg.burst || e.r.drain)
  {
    hide RateOf, Ms;
    if e.r.maxWait > 0 || e.r.hits <= cfg.burst {
      NewLikeFull(tol, cfg, e);
    } else {
      WholeIsWhole(tol, cfg.burst);
    }
  }

  lemma WholeIsWhole(tol: Tolerance, n: int)
    requires Sane(tol)
    ensures SnapToZero(tol, n as real) == n as real
    ensures n >= 0 ==> WholeTokens(tol, n as real) == n
  {
    assert (n as real + tol.token).Floor == n;
  }

  /** The four things that can happen to hits: admitted, booked, refused, or refused and drained. */
  lemma CountCases(tol: Tolerance, cfg: Config, level: real, e: Event, wasInDebt: bool)
    requires Sane(tol) && Positive(cfg) && Steady(cfg, e)
    requires level <= cfg.burst as real && SnapToZero(tol, level) == level
    ensures var d := Count(tol, cfg, level, e, wasInDebt);
            var left := d.bucket.remaining;
            var h := e.r.hits as real;
            && d.bucket == BucketAt(cfg, left, e.env.now)
            && d.answer.Answer?
            && (d.answer.status == UnderLimit ==>
                  && d.answer.retryAfter == 0
                  && left == (if h == 0.0 then level else SnapToZero(tol, level - h))
                  && (h > 0.0 ==> h <= level + tol.token && d.extend == wasInDebt))
            && (d.answer.status == Scheduled ==>
                  && d.answer.retryAfter == Wait(tol, BucketAt(cfg, level, e.env.now), e.r.hits, e.env.now, Ms(cfg))
                  && d.answer.retryAfter <= Min(e.r.maxWait, e.env.ceiling)
                  && left == level - h && level + tol.token < h <= cfg.burst as real && h > 0.0 && d.extend)
            && (d.answer.status == OverLimit || d.answer.status == NeverFits ==>
                  && left == (if e.r.drain then MinReal(level, 0.0) else level)
                  && (d.answer.status == OverLimit ==> level + tol.token < h)
                  && (d.answer.status == NeverFits ==> !e.r.drain)
                  && h > 0.0 && !d.extend)
  {
    hide FullAt, WholeRate, Ms, Wait;
    MsPositive(cfg);
  }

  lemma WaitIsTime(tol: Tolerance, cfg: Config, level: real, hits: int, now: int)
    requires Positive(cfg)
    ensures Wait(tol, BucketAt(cfg, level, now), hits, now, Ms(cfg)) ==
            Max(1, Ceil(Time(cfg, hits as real - level) - tol.wait))
  {
    hide Ms, Ceil;
    assert (Max(now, now) - now) as real == 0.0;
    assert 0.0 + (hits as real - level) * Ms(cfg) - tol.wait == Time(cfg, hits as real - level) - tol.wait;
  }

  /** The wait is the time the missing tokens take to leak in, rounded up. */
  lemma WaitBounds(tol: Tolerance, cfg: Config, level: real, hits: int, now: int)
    requires Sane(tol) && Positive(cfg) && level < hits as real
    ensures var x := Time(cfg, hits as real - level);
            var wait := Wait(tol, BucketAt(cfg, level, now), hits, now, Ms(cfg));
            1 <= wait && x - tol.wait <= wait as real && wait as real <= x + 1.0
  {
    hide Ms, Time, Wait;
    WaitIsTime(tol, cfg, level, hits, now);
    TimeGrows(cfg, 0.0, hits as real - level);
    TimeGrows(cfg, hits as real - level, hits as real - level);
  }

  lemma TimeOfLeak(cfg: Config, elapsed: real)
    requires Positive(cfg)
    ensures Time(cfg, elapsed / Ms(cfg)) == elapsed
    ensures elapsed >= 0.0 ==> elapsed / Ms(cfg) >= 0.0
  {
    hide Ms;
    MsPositive(cfg);
  }

  /** A duration leaks a limit's worth of tokens. */
  lemma DurationLeaksLimit(cfg: Config)
    requires Positive(cfg)
    ensures Ms(cfg) > 0.0 && cfg.duration as real / Ms(cfg) == cfg.limit as real
  {
    MsPositive(cfg);
    assert cfg.limit as real * Ms(cfg) == cfg.duration as real;
    hide Ms;
    DividesBack(cfg.limit as real, Ms(cfg));
  }

  lemma DividesBack(x: real, ms: real)
    requires ms > 0.0
    ensures x * ms / ms == x
  {
  }

  lemma LeakAdds(cfg: Config, x: real, y: real)
    requires Positive(cfg)
    ensures (x + y) / Ms(cfg) == x / Ms(cfg) + y / Ms(cfg)
  {
    hide Ms;
    MsPositive(cfg);
  }

  /** Over time a balance grows by the leak, up to burst. */
  lemma BalanceLater(cfg: Config, slot: Slot, now: int, later: int)
    requires Positive(cfg) && Fits(cfg, slot, now) && now <= later
    ensures Balance(cfg, slot, later) ==
            MinReal(cfg.burst as real, Balance(cfg, slot, now) + (later - now) as real / Ms(cfg))
  {
    hide Ms;
    MsPositive(cfg);
    TimeOfLeak(cfg, (later - now) as real);
    if slot.Held? {
      LeakAdds(cfg, (now - slot.bucket.updatedAt) as real, (later - now) as real);
    }
  }

  lemma BalanceNow(cfg: Config, level: real, now: int, expireAt: int)
    requires Positive(cfg) && level <= cfg.burst as real
    ensures Balance(cfg, Held(BucketAt(cfg, level, now), expireAt), now) == level
  {
    hide Ms;
    MsPositive(cfg);
    ZeroOver(Ms(cfg));
  }

  // ----- Expiry -----

  /** A spent burst refills by the first millisecond at which a key untouched since counts as expired. */
  ghost predicate Refillable(cfg: Config)
    requires Positive(cfg)
  {
    Time(cfg, cfg.burst as real) <= (cfg.duration + 1) as real
  }

  /** As every burst within the limit does. */
  lemma WithinLimitIsRefillable(cfg: Config)
    requires Positive(cfg) && cfg.burst <= cfg.limit
    ensures Refillable(cfg)
  {
    TimeGrows(cfg, cfg.burst as real, cfg.limit as real);
    assert cfg.limit as real * Ms(cfg) == cfg.duration as real;
  }

  /** When the level set by a decision is back at burst. */
  function RefillAt(cfg: Config, b: Bucket): real
    requires cfg.limit > 0
  {
    b.updatedAt as real + Time(cfg, cfg.burst as real - b.remaining)
  }

  lemma RefillWithinDuration(cfg: Config, b: Bucket)
    requires Positive(cfg) && Refillable(cfg) && b.remaining >= 0.0
    ensures RefillAt(cfg, b) <= (b.updatedAt + cfg.duration + 1) as real
  {
    hide Time;
    TimeGrows(cfg, cfg.burst as real - b.remaining, cfg.burst as real);
  }

  lemma ExtendedPastRefill(cfg: Config, b: Bucket, expireAt: int, now: int)
    requires Positive(cfg) && b.burst == cfg.burst
    ensures RefillAt(cfg, b) <= ExtendExpiry(expireAt, b, now, cfg.duration, PerToken(Ms(cfg))) as real
    ensures expireAt <= ExtendExpiry(expireAt, b, now, cfg.duration, PerToken(Ms(cfg)))
  {
    hide Ms;
  }

  /** With exact arithmetic and a burst that refills in time: after a step the key stays cached until
      it is full again, unless the step took no grant and left the expiry no earlier than it was. */
  lemma StepExpiry(tol: Tolerance, cfg: Config, keep: bool, slot: Slot, e: Event)
    requires Sane(tol) && tol.token == 0.0 && Positive(cfg) && Refillable(cfg)
    requires Steady(cfg, e) && Fits(cfg, slot, e.env.now) && Lookup(slot, e.env.now, keep).Held?
    ensures var step := LeakyStep(tol, keep, slot, e.r, e.env);
            var level := Balance(cfg, slot, e.env.now);
            && step.slot.Held? && step.answer.Answer?
            && (|| RefillAt(cfg, step.slot.bucket) <= (step.slot.expireAt + 1) as real
                || (&& slot.expireAt == step.slot.expireAt
                    && (e.r.hits == 0 || step.answer.status == OverLimit || step.answer.status == NeverFits)
                    && step.slot.bucket ==
                       BucketAt(cfg, if e.r.hits > 0 && e.r.drain then MinReal(level, 0.0) else level, e.env.now)
                    && (e.r.hits > 0 ==> slot.bucket.remaining < 0.0 && (e.r.drain ==> level < e.r.hits as real))))
  {
    hide Count, Ms, Time, Balance, ExtendExpiry, LeakyStep;
    var level := Balance(cfg, slot, e.env.now);
    BalanceAtMostBurst(cfg, slot, e.env.now);
    StepFromLevel(tol, cfg, keep, slot, e);
    var d := Count(tol, cfg, level, e, slot.bucket.remaining < 0.0);
    CountCases(tol, cfg, level, e, slot.bucket.remaining < 0.0);
    var touched := if e.r.hits != 0 && slot.bucket.remaining >= 0.0 then e.env.now + cfg.duration else slot.expireAt;
    if d.extend {
      ExtendedPastRefill(cfg, d.bucket, touched, e.env.now);
    } else if e.r.hits != 0 && slot.bucket.remaining >= 0.0 {
      RefillWithinDuration(cfg, d.bucket);
    }
  }

  lemma BalanceAtMostBurst(cfg: Config, slot: Slot, now: int)
    requires Positive(cfg)
    ensures Balance(cfg, slot, now) <= cfg.burst as real
    ensures slot.Held? && slot.bucket.remaining >= 0.0 ==> Balance(cfg, slot, now) >= 0.0
  {
    hide Ms;
    MsPositive(cfg);
    if slot.Held? {
      TimeOfLeak(cfg, Max(0, now - slot.bucket.updatedAt) as real);
    }
  }
}
