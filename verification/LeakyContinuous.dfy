/**
 Lazy crediting refines a bucket that leaks continuously. The reference below knows one number,
 the level, and decides by comparing hits with it; it has no clock, no stored time and no expiry.
 */
module LeakyContinuous {
  import opened Numbers
  import opened LeakyBucket
  import opened LeakyFixed

  // ----- The reference -----

  /** A level after a wait, before the clamp at burst. */
  function LevelAfter(cfg: Config, level: real, wait: int): real
    requires Positive(cfg) && Ms(cfg) > 0.0
  {
    level + wait as real / Ms(cfg)
  }

  /** The least whole number of milliseconds, at least one, after which the leak covers the hits. */
  ghost predicate LeastWait(cfg: Config, level: real, hits: int, wait: int)
    requires Positive(cfg) && Ms(cfg) > 0.0
  {
    && wait >= 1
    && LevelAfter(cfg, level, wait) >= hits as real
    && forall w :: 1 <= w < wait ==> LevelAfter(cfg, level, w) < hits as real
  }

  function Shown(level: real): int {
    Max(0, level.Floor)
  }

  /** What a continuously leaking bucket at a level does with a request. */
  ghost predicate Reference(cfg: Config, level: real, e: Event, left: real, status: Status, shown: int, wait: int)
    requires Positive(cfg) && Ms(cfg) > 0.0
  {
    var h := e.r.hits as real;
    && shown == Shown(left)
    && (if e.r.hits == 0 then
          status == UnderLimit && left == level && wait == 0
        else if e.r.maxWait > 0 && e.r.hits > cfg.burst then
          status == NeverFits && left == level && wait == 0
        else if h <= level then
          status == UnderLimit && left == level - h && wait == 0
        else if e.r.maxWait == 0 then
          status == OverLimit && left == (if e.r.drain then MinReal(level, 0.0) else level) && wait == 0
        else
          && LeastWait(cfg, level, e.r.hits, wait)
          && if wait <= Min(e.r.maxWait, e.env.ceiling)
             then status == Scheduled && left == level - h
             else status == OverLimit && left == level)
  }

  // ----- Every step follows the level -----

  /** A request that a key seen for the first time treats like a full one. */
  ghost predicate Fitting(cfg: Config, e: Event) {
    e.r.maxWait > 0 || e.r.hits <= cfg.burst
  }

  lemma CountIgnoresHistory(tol: Tolerance, cfg: Config, level: real, e: Event, wasInDebt: bool)
    requires Positive(cfg)
    ensures var d, d' := Count(tol, cfg, level, e, wasInDebt), Count(tol, cfg, level, e, false);
            d.answer == d'.answer && d.bucket == d'.bucket
  {
    hide SnapToZero, WholeTokens, FullAt, WholeRate, Wait, Ms;
  }

  lemma StepFromBalance(tol: Tolerance, cfg: Config, keep: bool, slot: Slot, e: Event)
    requires Sane(tol) && Positive(cfg) && Steady(cfg, e) && Fits(cfg, slot, e.env.now)
    requires Fitting(cfg, e) || Lookup(slot, e.env.now, keep).Held?
    ensures var d := Count(tol, cfg, SnapToZero(tol, Balance(cfg, Lookup(slot, e.env.now, keep), e.env.now)), e, false);
            var step := LeakyStep(tol, keep, slot, e.r, e.env);
            && step.answer == d.answer
            && Fits(cfg, step.slot, e.env.now)
            && Balance(cfg, step.slot, e.env.now) == d.bucket.remaining
  {
    hide Count, Ms, NewStep, ExistingStep;
    var found := Lookup(slot, e.env.now, keep);
    var step := LeakyStep(tol, keep, slot, e.r, e.env);
    BalanceAtMostBurst(cfg, found, e.env.now);
    var level := SnapToZero(tol, Balance(cfg, found, e.env.now));
    WholeIsWhole(tol, cfg.burst);
    CountCases(tol, cfg, level, e, false);
    var left := Count(tol, cfg, level, e, false).bucket.remaining;
    if found.Held? {
      StepFromLevel(tol, cfg, keep, slot, e);
      CountIgnoresHistory(tol, cfg, level, e, slot.bucket.remaining < 0.0);
      BalanceNow(cfg, left, e.env.now, step.slot.expireAt);
    } else {
      NewLikeFull(tol, cfg, e);
      BalanceNow(cfg, left, e.env.now, e.env.now + cfg.duration);
    }
  }

  lemma ExactWait(cfg: Config, level: real, hits: int, now: int)
    requires Positive(cfg) && level < hits as real
    ensures Ms(cfg) > 0.0
    ensures LeastWait(cfg, level, hits, Wait(EXACT, BucketAt(cfg, level, now), hits, now, Ms(cfg)))
  {
    hide Ms, Time, Wait;
    MsPositive(cfg);
    var missing := hits as real - level;
    var wait := Wait(EXACT, BucketAt(cfg, level, now), hits, now, Ms(cfg));
    WaitBounds(EXACT, cfg, level, hits, now);
    Covers(cfg, missing, wait);
    forall w | 1 <= w < wait
      ensures LevelAfter(cfg, level, w) < hits as real
    {
      WaitLeast(cfg, level, hits, now, w);
    }
  }

  /** A wait covers the missing tokens exactly when it is as long as they take to leak in. */
  lemma Covers(cfg: Config, missing: real, wait: int)
    requires Positive(cfg)
    ensures Ms(cfg) > 0.0
    ensures wait as real / Ms(cfg) >= missing <==> wait as real >= Time(cfg, missing)
  {
    hide Ms, Time;
    MsPositive(cfg);
    TimeOfLeak(cfg, wait as real);
    if wait as real / Ms(cfg) >= missing {
      TimeGrows(cfg, missing, wait as real / Ms(cfg));
    } else {
      TimeGrows(cfg, wait as real / Ms(cfg), missing);
    }
  }

  lemma WaitLeast(cfg: Config, level: real, hits: int, now: int, w: int)
    requires Positive(cfg) && level < hits as real
    requires 1 <= w < Wait(EXACT, BucketAt(cfg, level, now), hits, now, Ms(cfg))
    ensures Ms(cfg) > 0.0
    ensures LevelAfter(cfg, level, w) < hits as real
  {
    hide Ms, Time;
    MsPositive(cfg);
    WaitIsTime(EXACT, cfg, level, hits, now);
    Covers(cfg, hits as real - level, w);
  }

  lemma CountFollowsReference(cfg: Config, level: real, e: Event)
    requires Positive(cfg) && Steady(cfg, e) && level <= cfg.burst as real
    ensures Ms(cfg) > 0.0
    ensures var d := Count(EXACT, cfg, level, e, false);
            d.answer.Answer? &&
            Reference(cfg, level, e, d.bucket.remaining, d.answer.status, d.answer.remaining, d.answer.retryAfter)
  {
    hide Ms, Wait, FullAt, WholeRate, LeastWait;
    MsPositive(cfg);
    if level < e.r.hits as real {
      ExactWait(cfg, level, e.r.hits, e.env.now);
    }
  }

  lemma StepFits(tol: Tolerance, cfg: Config, keep: bool, slot: Slot, e: Event)
    requires Sane(tol) && Positive(cfg) && Steady(cfg, e) && Fits(cfg, slot, e.env.now)
    ensures Fits(cfg, LeakyStep(tol, keep, slot, e.r, e.env).slot, e.env.now)
  {
    hide Balance, ExistingStep, Count;
    if Lookup(slot, e.env.now, keep).Held? {
      StepFromBalance(tol, cfg, keep, slot, e);
    }
  }

  /** Every answer and every balance is what the continuously leaking bucket gives. */
  lemma RefinesReference(cfg: Config, keep: bool, slot: Slot, e: Event)
    requires Positive(cfg) && Steady(cfg, e) && Fits(cfg, slot, e.env.now)
    requires Fitting(cfg, e) || Lookup(slot, e.env.now, keep).Held?
    ensures Ms(cfg) > 0.0
    ensures var step := LeakyStep(EXACT, keep, slot, e.r, e.env);
            && step.answer.Answer?
            && Reference(cfg, Balance(cfg, Lookup(slot, e.env.now, keep), e.env.now), e,
                         Balance(cfg, step.slot, e.env.now),
                         step.answer.status, step.answer.remaining, step.answer.retryAfter)
  {
    hide Ms, Balance, LeakyStep, Count, Reference;
    var found := Lookup(slot, e.env.now, keep);
    BalanceAtMostBurst(cfg, found, e.env.now);
    StepFromBalance(EXACT, cfg, keep, slot, e);
    CountFollowsReference(cfg, Balance(cfg, found, e.env.now), e);
  }

  // ----- Buckets that show the same balance cannot be told apart -----

  ghost predicate Alike(cfg: Config, a: Slot, b: Slot, now: int)
    requires Positive(cfg)
  {
    Fits(cfg, a, now) && Fits(cfg, b, now) && Balance(cfg, a, now) == Balance(cfg, b, now)
  }

  lemma AlikeLater(cfg: Config, a: Slot, b: Slot, now: int, later: int)
    requires Positive(cfg) && Alike(cfg, a, b, now) && now <= later
    ensures Alike(cfg, a, b, later)
  {
    hide Balance, Ms;
    BalanceLater(cfg, a, now, later);
    BalanceLater(cfg, b, now, later);
  }

  lemma AlikeSteps(tol: Tolerance, cfg: Config, keep: bool, a: Slot, keep': bool, b: Slot, e: Event)
    requires Sane(tol) && Positive(cfg) && Steady(cfg, e) && Fitting(cfg, e)
    requires Fits(cfg, a, e.env.now) && Fits(cfg, b, e.env.now)
    requires Alike(cfg, Lookup(a, e.env.now, keep), Lookup(b, e.env.now, keep'), e.env.now)
    ensures var x, y := LeakyStep(tol, keep, a, e.r, e.env), LeakyStep(tol, keep', b, e.r, e.env);
            x.answer == y.answer && Alike(cfg, x.slot, y.slot, e.env.now)
  {
    hide Balance, Ms, LeakyStep, Count, Steady, Fits;
    StepFromBalance(tol, cfg, keep, a, e);
    StepFromBalance(tol, cfg, keep', b, e);
  }

  /** A query leaves the balance alone exactly when it is not within the tolerance of zero. */
  lemma QueryKeepsBalanceIff(tol: Tolerance, cfg: Config, slot: Slot, e: Event)
    requires Sane(tol) && Positive(cfg) && Steady(cfg, e) && Fits(cfg, slot, e.env.now) && e.r.hits == 0
    ensures var balance := Balance(cfg, slot, e.env.now);
            Alike(cfg, slot, LeakyStep(tol, true, slot, e.r, e.env).slot, e.env.now) <==>
            !(-tol.token < balance < tol.token && balance != 0.0)
  {
    hide Balance, Ms, LeakyStep, Count;
    StepFromBalance(tol, cfg, true, slot, e);
    BalanceAtMostBurst(cfg, slot, e.env.now);
    CountCases(tol, cfg, SnapToZero(tol, Balance(cfg, slot, e.env.now)), e, false);
  }

  // ----- Queries over a run -----

  /** A run without the requests marked for dropping. */
  function Thin(events: seq<Event>, drop: seq<bool>): seq<Event>
    requires |drop| == |events|
  {
    if events == [] then []
    else
      var n := |events| - 1;
      Thin(events[..n], drop[..n]) + (if drop[n] then [] else [events[n]])
  }

  /** A steady run whose requests fit the burst, with only queries marked for dropping. */
  ghost predicate Thinnable(cfg: Config, events: seq<Event>, drop: seq<bool>) {
    && |drop| == |events| && SteadyRun(cfg, events)
    && forall i :: 0 <= i < |events| ==> Fitting(cfg, events[i]) && (drop[i] ==> events[i].r.hits == 0)
  }

  lemma {:induction false} ThinnedRunIsAlike(cfg: Config, events: seq<Event>, drop: seq<bool>, now: int)
    requires Positive(cfg) && Thinnable(cfg, events, drop)
    requires events != [] ==> events[|events| - 1].env.now <= now
    ensures Alike(cfg, Run(EXACT, true, events), Run(EXACT, true, Thin(events, drop)), now)
  {
    hide LeakyStep, Alike, Steady, Fitting, Fits;
    if events == [] {
      SameIsAlike(cfg, now);
    } else {
      var n := |events| - 1;
      var e := events[n];
      var full, thin := Run(EXACT, true, events[..n]), Run(EXACT, true, Thin(events[..n], drop[..n]));
      ThinnedRunIsAlike(cfg, events[..n], drop[..n], e.env.now);
      assert events[..n] + [e] == events;
      RunExtends(EXACT, true, events[..n], e);
      AlikeFits(cfg, full, thin, e.env.now);
      if drop[n] {
        assert Thin(events, drop) == Thin(events[..n], drop[..n]);
        QueryKeepsBalanceIff(EXACT, cfg, full, e);
        AlikeTrans(cfg, full, LeakyStep(EXACT, true, full, e.r, e.env).slot, thin, e.env.now);
      } else {
        RunExtends(EXACT, true, Thin(events[..n], drop[..n]), e);
        AlikeSteps(EXACT, cfg, true, full, true, thin, e);
      }
      AlikeLater(cfg, Run(EXACT, true, events), Run(EXACT, true, Thin(events, drop)), e.env.now, now);
    }
  }

  lemma SameIsAlike(cfg: Config, now: int)
    requires Positive(cfg)
    ensures Alike(cfg, Empty, Empty, now)
  {
  }

  lemma AlikeFits(cfg: Config, a: Slot, b: Slot, now: int)
    requires Positive(cfg) && Alike(cfg, a, b, now)
    ensures Fits(cfg, a, now) && Fits(cfg, b, now)
  {
  }

  lemma AlikeTrans(cfg: Config, a: Slot, b: Slot, c: Slot, now: int)
    requires Positive(cfg) && Alike(cfg, a, b, now) && Alike(cfg, a, c, now)
    ensures Alike(cfg, b, c, now)
  {
  }

  /** On a key that is never dropped polling changes nothing: with any of the queries left out, every
      other request of the run is answered the same. */
  lemma KeptPollingChangesNothing(cfg: Config, events: seq<Event>, drop: seq<bool>, e: Event)
    requires Positive(cfg) && Thinnable(cfg, events + [e], drop + [false])
    ensures LeakyStep(EXACT, true, Run(EXACT, true, events), e.r, e.env).answer ==
            LeakyStep(EXACT, true, Run(EXACT, true, Thin(events, drop)), e.r, e.env).answer
  {
    hide LeakyStep, Alike, Steady, Fitting, Fits;
    var all, marks := events + [e], drop + [false];
    assert forall i :: 0 <= i < |events| ==> all[i] == events[i] && marks[i] == drop[i];
    assert all[|events|] == e;
    assert Steady(cfg, e) && Fitting(cfg, e);
    assert forall i :: 0 <= i < |events| ==> Steady(cfg, all[i]) && Fitting(cfg, all[i]);
    ThinnedRunIsAlike(cfg, events, drop, e.env.now);
    var full, thin := Run(EXACT, true, events), Run(EXACT, true, Thin(events, drop));
    AlikeFits(cfg, full, thin, e.env.now);
    AlikeSteps(EXACT, cfg, true, full, true, thin, e);
  }
}
