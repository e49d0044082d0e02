/**
 When the code's float tolerances change nothing. With a fixed configuration every balance is a
 multiple of 1/duration and every wait a multiple of 1/limit, so for durations under a billion
 milliseconds and limits under a million the code decides exactly as with no tolerance at all.
 */
module LeakyTolerance {
  import opened Numbers
  import opened LeakyBucket
  import opened LeakyFixed
  import opened LeakyContinuous

  predicate Whole(x: real) {
    x == x.Floor as real
  }

  lemma IntegersAreWhole(n: int)
    ensures Whole(n as real)
  {
  }

  lemma WholeSum(x: real, y: real)
    requires Whole(x) && Whole(y)
    ensures Whole(x + y) && Whole(x - y)
  {
    var a, b := x.Floor, y.Floor;
    IntegersAreWhole(a + b);
    IntegersAreWhole(a - b);
    assert (a + b) as real == a as real + b as real;
    assert (a - b) as real == a as real - b as real;
  }

  /** Distinct whole numbers are at least one apart. */
  lemma WholeGap(x: real, y: real)
    requires Whole(x) && Whole(y) && x < y
    ensures x + 1.0 <= y
  {
    var a, b := x.Floor, y.Floor;
    assert a < b;
    assert (a + 1) as real == a as real + 1.0;
  }

  lemma SameWhole(x: real, y: real)
    requires x == y && Whole(y)
    ensures Whole(x)
  {
  }

  lemma PositiveFactor(x: real, d: real)
    requires d > 0.0
    ensures x * d > 0.0 <==> x > 0.0
  {
  }

  /** The tolerances are finer than the grid the configuration's balances and waits lie on. */
  ghost predicate Inert(tol: Tolerance, cfg: Config) {
    Sane(tol) && Finer(tol.token, cfg.duration) && Finer(tol.wait, cfg.limit)
  }

  /** Smaller than 1/d. */
  ghost predicate Finer(tolerance: real, d: int) {
    tolerance * d as real < 1.0
  }

  /** A multiple of 1/d. */
  predicate OnGrid(d: int, x: real) {
    Whole(x * d as real)
  }

  lemma RoomBetween(low: real, high: real, tolerance: real, scale: real)
    requires scale > 0.0 && low < high && tolerance * scale < 1.0
    requires Whole(low * scale) && Whole(high * scale)
    ensures low + tolerance < high
  {
    PositiveFactor(high - low, scale);
    var lo, hi, room := low * scale, high * scale, tolerance * scale;
    assert (high - low) * scale == hi - lo;
    WholeGap(lo, hi);
    var gap := high - low - tolerance;
    assert gap * scale == hi - lo - room;
    PositiveFactor(gap, scale);
  }

  /** Between two points of the grid there is room for a finer tolerance. */
  lemma RoomOnGrid(low: real, high: real, tolerance: real, d: int)
    requires d > 0 && low < high && Finer(tolerance, d)
    requires OnGrid(d, low) && OnGrid(d, high)
    ensures low + tolerance < high
  {
    RoomBetween(low, high, tolerance, d as real);
  }

  lemma IntegerOnGrid(n: int, d: int)
    ensures OnGrid(d, n as real)
  {
    IntegersAreWhole(n * d);
    assert (n * d) as real == n as real * d as real;
  }

  lemma SnapIsInert(tol: Tolerance, cfg: Config, x: real)
    requires Positive(cfg) && Inert(tol, cfg) && OnGrid(cfg.duration, x)
    ensures SnapToZero(tol, x) == x
    ensures x < 0.0 ==> x + tol.token < 0.0
  {
    hide OnGrid, Finer;
    IntegerOnGrid(0, cfg.duration);
    if x < 0.0 {
      RoomOnGrid(x, 0.0, tol.token, cfg.duration);
    } else if x > 0.0 {
      RoomOnGrid(0.0, x, tol.token, cfg.duration);
    }
  }

  lemma WholeTokensIsInert(tol: Tolerance, cfg: Config, x: real)
    requires Positive(cfg) && Inert(tol, cfg) && OnGrid(cfg.duration, x) && x >= 0.0
    ensures WholeTokens(tol, x) == x.Floor
  {
    hide OnGrid, Finer;
    IntegerOnGrid(x.Floor + 1, cfg.duration);
    RoomOnGrid(x, (x.Floor + 1) as real, tol.token, cfg.duration);
  }

  lemma CeilIsInert(tol: Tolerance, cfg: Config, x: real)
    requires Positive(cfg) && Inert(tol, cfg) && OnGrid(cfg.limit, x)
    ensures Ceil(x - tol.wait) == Ceil(x)
  {
    hide OnGrid, Finer;
    IntegerOnGrid(Ceil(x) - 1, cfg.limit);
    RoomOnGrid((Ceil(x) - 1) as real, x, tol.wait, cfg.limit);
  }

  // ----- Balances and waits stay on the grid -----

  lemma GridSum(d: int, x: real, y: real)
    requires OnGrid(d, x) && OnGrid(d, y)
    ensures OnGrid(d, x + y) && OnGrid(d, x - y)
  {
    hide Whole;
    WholeSum(x * d as real, y * d as real);
    assert (x + y) * d as real == x * d as real + y * d as real;
    assert (x - y) * d as real == x * d as real - y * d as real;
  }

  lemma Rescaling(x: real, d: real, l: real, ms: real)
    requires d > 0.0 && l > 0.0 && ms == d / l
    ensures ms > 0.0
    ensures x / ms * d == x * l
    ensures x * ms * l == x * d
  {
    assert ms * l == d;
    var q := x / ms;
    assert q * ms == x;
    assert q * (ms * l) == q * ms * l;
  }

  lemma LeakOnGrid(cfg: Config, elapsed: int)
    requires Positive(cfg)
    ensures Ms(cfg) > 0.0
    ensures OnGrid(cfg.duration, elapsed as real / Ms(cfg))
  {
    Rescaling(elapsed as real, cfg.duration as real, cfg.limit as real, Ms(cfg));
    IntegersAreWhole(elapsed * cfg.limit);
    assert (elapsed * cfg.limit) as real == elapsed as real * cfg.limit as real;
    SameWhole(elapsed as real / Ms(cfg) * cfg.duration as real, (elapsed * cfg.limit) as real);
  }

  lemma TimeOnGrid(cfg: Config, tokens: real)
    requires Positive(cfg) && OnGrid(cfg.duration, tokens)
    ensures OnGrid(cfg.limit, Time(cfg, tokens))
  {
    Rescaling(tokens, cfg.duration as real, cfg.limit as real, Ms(cfg));
    SameWhole(Time(cfg, tokens) * cfg.limit as real, tokens * cfg.duration as real);
  }

  lemma BalanceOnGrid(cfg: Config, slot: Slot, now: int)
    requires Positive(cfg) && (slot.Held? ==> OnGrid(cfg.duration, slot.bucket.remaining))
    ensures OnGrid(cfg.duration, Balance(cfg, slot, now))
  {
    hide OnGrid, Ms;
    MsPositive(cfg);
    IntegerOnGrid(cfg.burst, cfg.duration);
    if slot.Held? {
      var elapsed := Max(0, now - slot.bucket.updatedAt);
      LeakOnGrid(cfg, elapsed);
      GridSum(cfg.duration, slot.bucket.remaining, elapsed as real / Ms(cfg));
    }
  }

  lemma WaitIsInert(tol: Tolerance, cfg: Config, level: real, hits: int, now: int)
    requires Positive(cfg) && Inert(tol, cfg) && OnGrid(cfg.duration, level)
    ensures Wait(tol, BucketAt(cfg, level, now), hits, now, Ms(cfg)) ==
            Wait(EXACT, BucketAt(cfg, level, now), hits, now, Ms(cfg))
  {
    hide OnGrid, Ms, Ceil, Time, Wait;
    IntegerOnGrid(hits, cfg.duration);
    GridSum(cfg.duration, hits as real, level);
    TimeOnGrid(cfg, hits as real - level);
    CeilIsInert(tol, cfg, Time(cfg, hits as real - level));
    WaitIsTime(tol, cfg, level, hits, now);
    WaitIsTime(EXACT, cfg, level, hits, now);
  }

  // ----- Steps and runs -----

  /** On the grid, the tokens a balance is worth do not depend on the tolerance. */
  lemma TokensAreInert(tol: Tolerance, cfg: Config, x: real)
    requires Positive(cfg) && Inert(tol, cfg) && OnGrid(cfg.duration, x)
    ensures SnapToZero(tol, x) == x
    ensures SpendableTokens(tol, x) == SpendableTokens(EXACT, x)
    ensures x >= 0.0 ==> WholeTokens(tol, x) == WholeTokens(EXACT, x)
    ensures x < 0.0 ==> WholeTokens(tol, x) <= 0 && WholeTokens(EXACT, x) <= 0
  {
    hide OnGrid, Finer;
    SnapIsInert(tol, cfg, x);
    if x >= 0.0 {
      WholeTokensIsInert(tol, cfg, x);
      ExactIsInert(cfg);
      WholeTokensIsInert(EXACT, cfg, x);
    }
  }

  lemma ExactIsInert(cfg: Config)
    ensures Inert(EXACT, cfg)
  {
  }

  lemma CountIsInert(tol: Tolerance, cfg: Config, level: real, e: Event, wasInDebt: bool)
    requires Positive(cfg) && Inert(tol, cfg) && Steady(cfg, e)
    requires OnGrid(cfg.duration, level) && level <= cfg.burst as real
    ensures Count(tol, cfg, level, e, wasInDebt) == Count(EXACT, cfg, level, e, wasInDebt)
    ensures OnGrid(cfg.duration, Count(EXACT, cfg, level, e, wasInDebt).bucket.remaining)
  {
    hide OnGrid, Finer, Ms, FullAt, WholeRate, Wait, WholeTokens, SnapToZero;
    var left := level - e.r.hits as real;
    IntegerOnGrid(e.r.hits, cfg.duration);
    IntegerOnGrid(0, cfg.duration);
    GridSum(cfg.duration, level, e.r.hits as real);
    ExactIsInert(cfg);
    TokensAreInert(tol, cfg, level);
    TokensAreInert(tol, cfg, left);
    TokensAreInert(EXACT, cfg, level);
    TokensAreInert(EXACT, cfg, left);
    WaitIsInert(tol, cfg, level, e.r.hits, e.env.now);
    if level >= 0.0 && e.r.hits <= WholeTokens(EXACT, level) {
      ExactTokens(level);
    }
  }

  lemma ExactTokens(x: real)
    requires x >= 0.0
    ensures WholeTokens(EXACT, x) as real <= x
  {
  }

  ghost predicate SlotOnGrid(cfg: Config, slot: Slot) {
    slot.Held? ==> OnGrid(cfg.duration, slot.bucket.remaining)
  }

  lemma StepIsInert(tol: Tolerance, cfg: Config, keep: bool, slot: Slot, e: Event)
    requires Positive(cfg) && Inert(tol, cfg) && Steady(cfg, e) && Fits(cfg, slot, e.env.now) && SlotOnGrid(cfg, slot)
    ensures LeakyStep(tol, keep, slot, e.r, e.env) == LeakyStep(EXACT, keep, slot, e.r, e.env)
    ensures var slot' := LeakyStep(EXACT, keep, slot, e.r, e.env).slot;
            SlotOnGrid(cfg, slot') && Fits(cfg, slot', e.env.now)
  {
    hide OnGrid, Finer, Ms, Count, ExtendExpiry, ExistingStep;
    if Lookup(slot, e.env.now, keep).Held? {
      hide LeakyStep;
      var level := Balance(cfg, slot, e.env.now);
      BalanceOnGrid(cfg, slot, e.env.now);
      BalanceAtMostBurst(cfg, slot, e.env.now);
      TokensAreInert(tol, cfg, level);
      CountIsInert(tol, cfg, level, e, slot.bucket.remaining < 0.0);
      StepFromLevel(tol, cfg, keep, slot, e);
      StepFromLevel(EXACT, cfg, keep, slot, e);
      CountCases(EXACT, cfg, level, e, slot.bucket.remaining < 0.0);
    } else {
      IntegerOnGrid(0, cfg.duration);
      IntegerOnGrid(Min(cfg.burst, cfg.burst - e.r.hits), cfg.duration);
    }
  }

  /** So it goes over whole runs, from any key on the grid. */
  lemma {:induction false} RunFromIsInert(tol: Tolerance, cfg: Config, keep: bool, slot: Slot, events: seq<Event>,
                                          now: int)
    requires Positive(cfg) && Inert(tol, cfg) && SteadyRun(cfg, events) && SlotOnGrid(cfg, slot)
    requires Fits(cfg, slot, if events == [] then now else events[0].env.now)
    requires events != [] ==> events[|events| - 1].env.now <= now
    ensures var after := RunFrom(EXACT, keep, slot, events);
            RunFrom(tol, keep, slot, events) == after && SlotOnGrid(cfg, after) && Fits(cfg, after, now)
  {
    hide LeakyStep, Steady, OnGrid, Inert;
    if events == [] {
    } else {
      var n := |events| - 1;
      RunFromIsInert(tol, cfg, keep, slot, events[..n], events[n].env.now);
      StepIsInert(tol, cfg, keep, RunFrom(EXACT, keep, slot, events[..n]), events[n]);
    }
  }

  lemma RunIsInert(tol: Tolerance, cfg: Config, keep: bool, events: seq<Event>, now: int)
    requires Positive(cfg) && Inert(tol, cfg) && SteadyRun(cfg, events)
    requires events != [] ==> events[|events| - 1].env.now <= now
    ensures Run(tol, keep, events) == Run(EXACT, keep, events)
    ensures SlotOnGrid(cfg, Run(EXACT, keep, events)) && Fits(cfg, Run(EXACT, keep, events), now)
  {
    hide Run, RunFrom, SteadyRun, Inert, OnGrid;
    RunFromIsInert(tol, cfg, keep, Empty, events, now);
    RunFromEmpty(tol, keep, events);
    RunFromEmpty(EXACT, keep, events);
  }

  /** With a duration under a billion milliseconds and a limit under a million, the code answers
      every request of every run as exact arithmetic would. */
  lemma CodeIsExact(cfg: Config, keep: bool, events: seq<Event>, i: nat)
    requires Positive(cfg) && SteadyRun(cfg, events) && i < |events|
    requires cfg.duration < 1_000_000_000 && cfg.limit < 1_000_000
    ensures AnswerAt(CODE_TOLERANCE, keep, events, i) == AnswerAt(EXACT, keep, events, i)
  {
    hide LeakyStep, Steady, OnGrid;
    assert Inert(CODE_TOLERANCE, cfg);
    RunIsInert(CODE_TOLERANCE, cfg, keep, events[..i], events[i].env.now);
    StepIsInert(CODE_TOLERANCE, cfg, keep, Run(EXACT, keep, events[..i]), events[i]);
  }

  /** And leaves every key as exact arithmetic would. */
  lemma CodeRunIsExact(cfg: Config, keep: bool, events: seq<Event>, now: int)
    requires Positive(cfg) && SteadyRun(cfg, events)
    requires cfg.duration < 1_000_000_000 && cfg.limit < 1_000_000
    requires events != [] ==> events[|events| - 1].env.now <= now
    ensures Run(CODE_TOLERANCE, keep, events) == Run(EXACT, keep, events)
    ensures Fits(cfg, Run(EXACT, keep, events), now)
  {
    hide Run, SteadyRun, OnGrid;
    assert Inert(CODE_TOLERANCE, cfg);
    RunIsInert(CODE_TOLERANCE, cfg, keep, events, now);
  }

  /** The same from a key on the grid, as every key that the code has left is. */
  lemma CodeFromIsExact(cfg: Config, keep: bool, slot: Slot, events: seq<Event>, i: nat)
    requires Positive(cfg) && SteadyRun(cfg, events) && i < |events| && SlotOnGrid(cfg, slot)
    requires Fits(cfg, slot, events[0].env.now) && cfg.duration < 1_000_000_000 && cfg.limit < 1_000_000
    ensures var x, y := RunFrom(CODE_TOLERANCE, keep, slot, events[..i]), RunFrom(EXACT, keep, slot, events[..i]);
            LeakyStep(CODE_TOLERANCE, keep, x, events[i].r, events[i].env) ==
            LeakyStep(EXACT, keep, y, events[i].r, events[i].env)
  {
    hide LeakyStep, Steady, OnGrid, RunFrom;
    assert Inert(CODE_TOLERANCE, cfg);
    RunFromIsInert(CODE_TOLERANCE, cfg, keep, slot, events[..i], events[i].env.now);
    StepIsInert(CODE_TOLERANCE, cfg, keep, RunFrom(EXACT, keep, slot, events[..i]), events[i]);
  }

  // ----- When the tolerance does show -----

  function Query(cfg: Config, now: int): Event {
    PlainAsk(cfg, 0, now, false)
  }

  /** A whole burst spent on a new key, and then its status asked for every millisecond, n times. */
  function SpentAndPolled(cfg: Config, start: int, n: nat): seq<Event> {
    if n == 0 then [WholeBurst(cfg, start)]
    else SpentAndPolled(cfg, start, n - 1) + [Query(cfg, start + n)]
  }

  lemma PolledOnce(cfg: Config, slot: Slot, now: int)
    requires Positive(cfg) && 1.0 < Time(cfg, CODE_TOLERANCE.token)
    requires slot.Held? && slot.bucket == BucketAt(cfg, 0.0, now - 1)
    ensures var q := Query(cfg, now);
            LeakyStep(CODE_TOLERANCE, false, slot, q.r, q.env).slot ==
            if now <= slot.expireAt then Held(BucketAt(cfg, 0.0, now), slot.expireAt)
            else Held(BucketAt(cfg, cfg.burst as real, now), now + cfg.duration)
  {
    hide ExistingStep, Ms, Time;
    MsPositive(cfg);
    TimeOfLeak(cfg, 1.0);
    if 1.0 / Ms(cfg) >= CODE_TOLERANCE.token {
      TimeGrows(cfg, CODE_TOLERANCE.token, 1.0 / Ms(cfg));
    }
    if now <= slot.expireAt {
      StepFromLevel(CODE_TOLERANCE, cfg, false, slot, Query(cfg, now));
    }
  }

  /** Slower than one token per billion milliseconds, a millisecond's leak is below the tolerance and
      each query snaps it away. A key spent and then polled that often stays empty for its whole
      duration, in which a limit's worth of tokens would have leaked in; a millisecond later it
      expires and is full. */
  lemma {:induction false} PollingStarves(cfg: Config, start: int, n: nat)
    requires Positive(cfg) && 1.0 < Time(cfg, CODE_TOLERANCE.token) && n <= cfg.duration + 1
    ensures Run(CODE_TOLERANCE, false, SpentAndPolled(cfg, start, n)) ==
            if n <= cfg.duration then Held(BucketAt(cfg, 0.0, start + n), start + cfg.duration)
            else Held(BucketAt(cfg, cfg.burst as real, start + n), start + n + cfg.duration)
  {
    hide LeakyStep, Time;
    if n == 0 {
      SpentIsEmpty(cfg, start);
    } else {
      PollingStarves(cfg, start, n - 1);
      var before := SpentAndPolled(cfg, start, n - 1);
      assert (before + [Query(cfg, start + n)])[..|before|] == before;
      PolledOnce(cfg, Run(CODE_TOLERANCE, false, before), start + n);
    }
  }

  lemma SpentIsEmpty(cfg: Config, start: int)
    requires Positive(cfg)
    ensures Run(CODE_TOLERANCE, false, SpentAndPolled(cfg, start, 0)) ==
            Held(BucketAt(cfg, 0.0, start), start + cfg.duration)
  {
    var events := SpentAndPolled(cfg, start, 0);
    assert events[..0] == [];
  }

  /** Left alone the same key refills. */
  lemma UnpolledRefills(cfg: Config, start: int, n: nat)
    requires Positive(cfg)
    ensures Ms(cfg) > 0.0
    ensures Balance(cfg, Run(CODE_TOLERANCE, false, SpentAndPolled(cfg, start, 0)), start + n) ==
            MinReal(cfg.burst as real, n as real / Ms(cfg))
    ensures n == cfg.duration ==> n as real / Ms(cfg) == cfg.limit as real
  {
    hide Run, Ms;
    SpentIsEmpty(cfg, start);
    DurationLeaksLimit(cfg);
  }
}
