/**
 Dropping an expired key is invisible, except on two paths: a refused request that drains a key whose
 debt has just been repaid does not move the key's expiry, and a request over the burst empties a key it
 does not find.
 */
module LeakyExpiry {
  import opened Numbers
  import opened LeakyBucket
  import opened LeakyFixed
  import opened LeakyContinuous
  import LeakyReconfig

  /** The key's balance is back at burst by the first millisecond it counts as expired. */
  ghost predicate RefillsInTime(cfg: Config, slot: Slot)
    requires cfg.limit > 0
  {
    slot.Held? ==> RefillAt(cfg, slot.bucket) <= (slot.expireAt + 1) as real
  }

  /** A plain request drains a key that was stored in debt and has since been repaid, and the expiry
      left over from the debt comes before an empty bucket refills. */
  ghost predicate DrainsPastExpiry(cfg: Config, slot: Slot, e: Event)
    requires Positive(cfg)
  {
    && e.r.drain && e.r.maxWait == 0 && slot.Held? && slot.bucket.remaining < 0.0
    && 0.0 < Balance(cfg, slot, e.env.now) < e.r.hits as real
    && (slot.expireAt + 1) as real < e.env.now as real + Time(cfg, cfg.burst as real)
  }

  lemma ExpiredIsFull(cfg: Config, slot: Slot, now: int)
    requires Positive(cfg) && Fits(cfg, slot, now) && RefillsInTime(cfg, slot)
    ensures Balance(cfg, Lookup(slot, now, false), now) == Balance(cfg, slot, now)
  {
    hide Ms, Time;
    MsPositive(cfg);
    if slot.Held? && slot.expireAt < now {
      var b := slot.bucket;
      var leak := (now - b.updatedAt) as real / Ms(cfg);
      TimeOfLeak(cfg, (now - b.updatedAt) as real);
      if leak < cfg.burst as real - b.remaining {
        TimeGrows(cfg, leak, cfg.burst as real - b.remaining);
      }
    }
  }

  /** A settled level refills when the stored one did, or is full now. */
  lemma SettledRefill(cfg: Config, slot: Slot, now: int)
    requires Positive(cfg) && slot.Held? && Fits(cfg, slot, now)
    ensures RefillAt(cfg, BucketAt(cfg, Balance(cfg, slot, now), now)) <=
            MaxReal(now as real, RefillAt(cfg, slot.bucket))
  {
    hide Ms, Time;
    MsPositive(cfg);
    var b := slot.bucket;
    var elapsed := Max(0, now - b.updatedAt) as real;
    TimeOfLeak(cfg, elapsed);
    TimeAdds(cfg, cfg.burst as real - b.remaining, elapsed / Ms(cfg));
    TimeAdds(cfg, cfg.burst as real, cfg.burst as real);
  }

  lemma DrainLeavesExpiry(cfg: Config, slot: Slot, e: Event)
    requires Positive(cfg) && Steady(cfg, e) && Fits(cfg, slot, e.env.now)
    requires DrainsPastExpiry(cfg, slot, e) && Lookup(slot, e.env.now, false).Held?
    ensures !RefillsInTime(cfg, LeakyStep(EXACT, false, slot, e.r, e.env).slot)
  {
    hide Count, Ms, Time, Balance, LeakyStep, ExtendExpiry;
    var level := Balance(cfg, slot, e.env.now);
    BalanceAtMostBurst(cfg, slot, e.env.now);
    StepFromLevel(EXACT, cfg, false, slot, e);
    CountCases(EXACT, cfg, level, e, true);
  }

  /** One step keeps a key cached long enough, exactly when it does not drain past the expiry. */
  lemma StepRefillsInTime(cfg: Config, slot: Slot, e: Event)
    requires Positive(cfg) && Refillable(cfg) && Steady(cfg, e)
    requires Fits(cfg, slot, e.env.now) && RefillsInTime(cfg, slot)
    ensures RefillsInTime(cfg, LeakyStep(EXACT, false, slot, e.r, e.env).slot) <==>
            !(Lookup(slot, e.env.now, false).Held? && DrainsPastExpiry(cfg, slot, e))
  {
    hide Ms, Time, Balance, ExistingStep, RefillAt;
    var step := LeakyStep(EXACT, false, slot, e.r, e.env);
    if Lookup(slot, e.env.now, false).Empty? {
      if step.slot.Held? {
        RefillWithinDuration(cfg, step.slot.bucket);
      }
    } else if DrainsPastExpiry(cfg, slot, e) {
      DrainLeavesExpiry(cfg, slot, e);
    } else {
      StepExpiry(EXACT, cfg, false, slot, e);
      SettledRefill(cfg, slot, e.env.now);
      DrainedRefill(cfg, slot, e);
    }
  }

  lemma DrainedRefill(cfg: Config, slot: Slot, e: Event)
    requires Positive(cfg) && slot.Held? && Fits(cfg, slot, e.env.now) && Steady(cfg, e)
    ensures RefillAt(cfg, BucketAt(cfg, 0.0, e.env.now)) == e.env.now as real + Time(cfg, cfg.burst as real)
  {
    hide Time;
    assert cfg.burst as real - 0.0 == cfg.burst as real;
  }

  // ----- Runs -----

  /** A run that never drains a key past its expiry, and asks for more than the burst only of keys that
      were not dropped. */
  ghost predicate Undrained(cfg: Config, events: seq<Event>)
    requires Positive(cfg)
  {
    && SteadyRun(cfg, events)
    && forall n :: 0 <= n < |events| ==> Unspoilt(cfg, events[..n], events[n])
  }

  ghost predicate Unspoilt(cfg: Config, events: seq<Event>, e: Event)
    requires Positive(cfg)
  {
    !Drains(cfg, Run(EXACT, false, events), e) && !Spoils(cfg, Run(EXACT, false, events), Run(EXACT, true, events), e)
  }

  /** A plain request over the burst finds the key in one cache only. If it drains too, all that tells is
      the reset time, by whole milliseconds per token. */
  ghost predicate Spoils(cfg: Config, slot: Slot, kept: Slot, e: Event)
    requires Positive(cfg)
  {
    && !Fitting(cfg, e) && Lookup(slot, e.env.now, false).Held? != kept.Held?
    && !(e.r.drain && WholeRate(PerToken(Ms(cfg))) == 0)
  }

  ghost predicate Drains(cfg: Config, slot: Slot, e: Event)
    requires Positive(cfg)
  {
    Lookup(slot, e.env.now, false).Held? && DrainsPastExpiry(cfg, slot, e)
  }

  lemma UndrainedPrefix(cfg: Config, events: seq<Event>)
    requires Positive(cfg) && Undrained(cfg, events) && events != []
    ensures Undrained(cfg, events[..|events| - 1])
  {
    hide Unspoilt, Steady;
    var init := events[..|events| - 1];
    forall n | 0 <= n < |init|
      ensures Unspoilt(cfg, init[..n], init[n])
    {
      assert init[..n] == events[..n];
    }
  }

  lemma {:induction false} ExpiringRunIsAlike(cfg: Config, events: seq<Event>, now: int)
    requires Positive(cfg) && Refillable(cfg) && Undrained(cfg, events)
    requires events != [] ==> events[|events| - 1].env.now <= now
    ensures RefillsInTime(cfg, Run(EXACT, false, events))
    ensures Alike(cfg, Run(EXACT, false, events), Run(EXACT, true, events), now)
  {
    hide LeakyStep, Alike, Steady, Fits, DrainsPastExpiry, RefillsInTime, Spoils;
    if events == [] {
      SameIsAlike(cfg, now);
      EmptyRefills(cfg);
    } else {
      var n := |events| - 1;
      var e := events[n];
      UndrainedPrefix(cfg, events);
      ExpiringRunIsAlike(cfg, events[..n], e.env.now);
      var slot, kept := Run(EXACT, false, events[..n]), Run(EXACT, true, events[..n]);
      ExpiringStepIsAlike(cfg, slot, kept, e);
      StepRefillsInTime(cfg, slot, e);
      AlikeLater(cfg, Run(EXACT, false, events), Run(EXACT, true, events), e.env.now, now);
    }
  }

  lemma EmptyRefills(cfg: Config)
    requires Positive(cfg)
    ensures RefillsInTime(cfg, Empty)
  {
  }

  lemma ResetsDiffer(limit: int, burst: int, rate: int)
    requires burst > 0
    ensures limit * rate == (limit - burst) * rate <==> rate == 0
  {
    assert (limit - burst) * rate == limit * rate - burst * rate;
    if rate > 0 {
      assert burst * rate > 0;
    } else if rate < 0 {
      assert burst * (-rate) > 0;
    }
  }

  /** A plain request over the burst, on a full key and on an unknown one. */
  lemma OverBurstOnFull(cfg: Config, e: Event)
    requires Positive(cfg) && Steady(cfg, e) && !Fitting(cfg, e)
    ensures var d, first := Count(EXACT, cfg, cfg.burst as real, e, false), NewStep(e.r, e.env);
            && (first.answer == d.answer <==> e.r.drain && WholeRate(PerToken(Ms(cfg))) == 0)
            && Fits(cfg, first.slot, e.env.now)
            && (e.r.drain ==> Balance(cfg, first.slot, e.env.now) == d.bucket.remaining)
  {
    hide RateOf, Ms, Balance, WholeRate;
    MsPositive(cfg);
    WholeIsWhole(EXACT, cfg.burst);
    ResetsDiffer(cfg.limit, cfg.burst, WholeRate(PerToken(Ms(cfg))));
    BalanceNow(cfg, 0.0, e.env.now, e.env.now + cfg.duration);
  }

  /** Of two slots with one balance, a plain request over the burst finds only one. */
  lemma OneFinds(cfg: Config, keep: bool, slot: Slot, keep': bool, other: Slot, e: Event)
    requires Positive(cfg) && Steady(cfg, e) && !Fitting(cfg, e) && Fits(cfg, slot, e.env.now)
    requires Lookup(slot, e.env.now, keep).Held? && Lookup(other, e.env.now, keep').Empty?
    requires Balance(cfg, slot, e.env.now) == cfg.burst as real
    ensures var x, y := LeakyStep(EXACT, keep, slot, e.r, e.env), LeakyStep(EXACT, keep', other, e.r, e.env);
            && (x.answer == y.answer <==> e.r.drain && WholeRate(PerToken(Ms(cfg))) == 0)
            && (e.r.drain ==> Alike(cfg, x.slot, y.slot, e.env.now))
  {
    hide Balance, Ms, Count, ExistingStep, NewStep, WholeRate;
    OverBurstOnFull(cfg, e);
    WholeIsWhole(EXACT, cfg.burst);
    StepFromBalance(EXACT, cfg, keep, slot, e);
  }

  lemma BothFind(cfg: Config, slot: Slot, kept: Slot, e: Event)
    requires Positive(cfg) && Steady(cfg, e) && Alike(cfg, slot, kept, e.env.now)
    requires Lookup(slot, e.env.now, false).Held? && kept.Held?
    ensures var x, y := LeakyStep(EXACT, false, slot, e.r, e.env), LeakyStep(EXACT, true, kept, e.r, e.env);
            x.answer == y.answer && Alike(cfg, x.slot, y.slot, e.env.now)
  {
    hide Balance, Ms, LeakyStep, Count, Steady, Fits;
    StepFromBalance(EXACT, cfg, false, slot, e);
    StepFromBalance(EXACT, cfg, true, kept, e);
  }

  lemma NeitherFinds(cfg: Config, slot: Slot, e: Event)
    requires Positive(cfg) && Steady(cfg, e) && Lookup(slot, e.env.now, false).Empty?
    ensures var x, y := LeakyStep(EXACT, false, slot, e.r, e.env), LeakyStep(EXACT, true, Empty, e.r, e.env);
            x == y && Alike(cfg, x.slot, y.slot, e.env.now)
  {
    hide Balance, RateOf;
  }

  /** A step on an expiring key and on the kept one: the answers are the same if and only if it does not
      spoil, and then so are the balances. */
  lemma ExpiringStepIsAlike(cfg: Config, slot: Slot, kept: Slot, e: Event)
    requires Positive(cfg) && Steady(cfg, e)
    requires RefillsInTime(cfg, slot) && Alike(cfg, slot, kept, e.env.now)
    ensures Fits(cfg, slot, e.env.now)
    ensures var x, y := LeakyStep(EXACT, false, slot, e.r, e.env), LeakyStep(EXACT, true, kept, e.r, e.env);
            && (x.answer == y.answer <==> !Spoils(cfg, slot, kept, e))
            && (x.answer == y.answer ==> Alike(cfg, x.slot, y.slot, e.env.now))
  {
    hide LeakyStep, Balance, RefillsInTime, Steady, WholeRate;
    ExpiredIsFull(cfg, slot, e.env.now);
    if Fitting(cfg, e) {
      AlikeSteps(EXACT, cfg, false, slot, true, kept, e);
    } else {
      EmptyIsFull(cfg, e.env.now);
      if Lookup(slot, e.env.now, false).Held? {
        if kept.Held? {
          BothFind(cfg, slot, kept, e);
        } else {
          OneFinds(cfg, false, slot, true, kept, e);
        }
      } else {
        if kept.Held? {
          OneFinds(cfg, true, kept, false, slot, e);
        } else {
          NeitherFinds(cfg, slot, e);
        }
      }
    }
  }

  lemma EmptyIsFull(cfg: Config, now: int)
    requires Positive(cfg)
    ensures Balance(cfg, Empty, now) == cfg.burst as real
  {
  }

  /** Expiry is invisible: with a burst that refills in time and no draining past it, a cache that drops
      expired keys answers every request like one that never does. */
  lemma ExpiryIsInvisible(cfg: Config, events: seq<Event>, e: Event)
    requires Positive(cfg) && Refillable(cfg) && Undrained(cfg, events + [e])
    ensures LeakyStep(EXACT, false, Run(EXACT, false, events), e.r, e.env).answer ==
            LeakyStep(EXACT, true, Run(EXACT, true, events), e.r, e.env).answer
  {
    hide LeakyStep, Alike, Steady, RefillsInTime, Drains, Spoils;
    var all := events + [e];
    UndrainedPrefix(cfg, all);
    assert all[..|all| - 1] == events && all[|events|] == e;
    assert Steady(cfg, e) && Unspoilt(cfg, events, e);
    ExpiringRunIsAlike(cfg, events, e.env.now);
    ExpiringStepIsAlike(cfg, Run(EXACT, false, events), Run(EXACT, true, events), e);
  }

  /** So it is for all such runs of a configuration. */
  ghost predicate NeverShows(cfg: Config)
    requires Positive(cfg)
  {
    forall events, e :: Undrained(cfg, events + [e]) ==> AnswersAsKept(events, e)
  }

  ghost predicate AnswersAsKept(events: seq<Event>, e: Event) {
    LeakyStep(EXACT, false, Run(EXACT, false, events), e.r, e.env).answer ==
    LeakyStep(EXACT, true, Run(EXACT, true, events), e.r, e.env).answer
  }

  /** Which are those whose burst refills by the time a key untouched since counts as expired, and no
      other: a larger burst taken when the key has just expired is admitted, and refused had it been kept. */
  lemma ExpiryIsInvisibleIff(cfg: Config)
    requires Positive(cfg)
    ensures NeverShows(cfg) <==> Refillable(cfg)
  {
    hide Undrained, AnswersAsKept, Refillable;
    if Refillable(cfg) {
      forall events, e | Undrained(cfg, events + [e])
        ensures AnswersAsKept(events, e)
      {
        ExpiryIsInvisible(cfg, events, e);
        AnswersAsKeptIff(events, e);
      }
    } else {
      BurstTwiceIsUndrained(cfg);
      BurstTwiceShows(cfg);
      assert !AnswersAsKept([WholeBurst(cfg, 0)], WholeBurst(cfg, cfg.duration + 1));
    }
  }

  lemma BurstTwiceIsUndrained(cfg: Config)
    requires Positive(cfg)
    ensures Undrained(cfg, [WholeBurst(cfg, 0)] + [WholeBurst(cfg, cfg.duration + 1)])
  {
    hide Run, LeakyStep;
    var events := [WholeBurst(cfg, 0)] + [WholeBurst(cfg, cfg.duration + 1)];
    forall n | 0 <= n < 2
      ensures Unspoilt(cfg, events[..n], events[n])
    {
      OnlyDrainsDrain(cfg, Run(EXACT, false, events[..n]), events[n]);
    }
  }

  lemma BurstTwiceShows(cfg: Config)
    requires Positive(cfg) && !Refillable(cfg)
    ensures !AnswersAsKept([WholeBurst(cfg, 0)], WholeBurst(cfg, cfg.duration + 1))
  {
    hide LeakyStep, Balance, Time;
    var e, f := WholeBurst(cfg, 0), WholeBurst(cfg, cfg.duration + 1);
    var spent := Held(BucketAt(cfg, 0.0, 0), cfg.duration);
    FirstBurst(cfg);
    RunExtends(EXACT, false, [], e);
    RunExtends(EXACT, true, [], e);
    assert [] + [e] == [e];
    DroppedIsFull(spent, f);
    BalanceNow(cfg, 0.0, 0, cfg.duration);
    NotYetFull(cfg, spent, 0, f.env.now);
    RefinesReference(cfg, true, spent, f);
  }

  lemma FirstBurst(cfg: Config)
    requires Positive(cfg)
    ensures var e := WholeBurst(cfg, 0);
            forall keep :: LeakyStep(EXACT, keep, Empty, e.r, e.env).slot == Held(BucketAt(cfg, 0.0, 0), cfg.duration)
  {
    hide RateOf;
  }

  /** Once a step drains past the expiry, a whole burst asked for right after the key expires is refused
      if the key was kept and admitted if it was dropped. */
  lemma DrainMakesExpiryVisible(cfg: Config, slot: Slot, kept: Slot, e: Event)
    requires Positive(cfg) && Refillable(cfg) && Steady(cfg, e) && !Spoils(cfg, slot, kept, e)
    requires RefillsInTime(cfg, slot) && Alike(cfg, slot, kept, e.env.now) && Drains(cfg, slot, e)
    ensures var f := WholeBurst(cfg, slot.expireAt + 1);
            var x := LeakyStep(EXACT, false, slot, e.r, e.env).slot;
            var y := LeakyStep(EXACT, true, kept, e.r, e.env).slot;
            var a, a' := LeakyStep(EXACT, false, x, f.r, f.env).answer, LeakyStep(EXACT, true, y, f.r, f.env).answer;
            a.Answer? && a.status == UnderLimit && a'.Answer? && a'.status == OverLimit
  {
    hide LeakyStep, Balance, Ms, Time, Count, Spoils;
    var f := WholeBurst(cfg, slot.expireAt + 1);
    ExpiringStepIsAlike(cfg, slot, kept, e);
    var x, y := LeakyStep(EXACT, false, slot, e.r, e.env).slot, LeakyStep(EXACT, true, kept, e.r, e.env).slot;
    DrainedToZero(cfg, slot, e);
    DroppedIsFull(x, f);
    NotYetFull(cfg, y, e.env.now, f.env.now);
    AlikeLater(cfg, x, y, e.env.now, f.env.now);
    RefinesReference(cfg, true, y, f);
  }

  /** A request of a run breaks invisibility, in its own answer or in the answer to some next request within
      the burst, if and only if it drains past the expiry or asks an expired key for more than the burst. */
  lemma ExpiryShowsIff(cfg: Config, events: seq<Event>, e: Event)
    requires Positive(cfg) && Refillable(cfg) && Undrained(cfg, events) && SteadyRun(cfg, events + [e])
    ensures AnswersAsKept(events, e) && NextAsKept(cfg, events + [e], e.env.now) <==> Unspoilt(cfg, events, e)
  {
    hide LeakyStep, Run, Undrained, AnswersAsKept, NextAsKept, Steady, DrainsPastExpiry, Spoils, RefillsInTime, Alike,
         Fits, Refillable;
    var slot, kept := Run(EXACT, false, events), Run(EXACT, true, events);
    LastIsSteady(cfg, events, e);
    ExpiringRunIsAlike(cfg, events, e.env.now);
    ExpiringStepIsAlike(cfg, slot, kept, e);
    AnswersAsKeptIff(events, e);
    if !Spoils(cfg, slot, kept, e) {
      StepRefillsInTime(cfg, slot, e);
      RunExtends(EXACT, false, events, e);
      RunExtends(EXACT, true, events, e);
      if Drains(cfg, slot, e) {
        DrainShowsNext(cfg, events, e);
      } else {
        RefilledIsAsKept(cfg, events + [e], e.env.now);
      }
    }
  }

  /** The next request is answered alike, as long as it is within the burst. */
  ghost predicate NextAsKept(cfg: Config, events: seq<Event>, now: int) {
    forall f :: Steady(cfg, f) && Fitting(cfg, f) && now <= f.env.now ==> AnswersAsKept(events, f)
  }

  lemma LastIsSteady(cfg: Config, events: seq<Event>, e: Event)
    requires SteadyRun(cfg, events + [e])
    ensures Steady(cfg, e) && (events != [] ==> events[|events| - 1].env.now <= e.env.now)
  {
    hide Steady;
    var all := events + [e];
    assert all[|events|] == e;
    assert events != [] ==> all[|events| - 1] == events[|events| - 1];
  }

  lemma AnswersAsKeptIff(events: seq<Event>, e: Event)
    ensures AnswersAsKept(events, e) <==>
            LeakyStep(EXACT, false, Run(EXACT, false, events), e.r, e.env).answer ==
            LeakyStep(EXACT, true, Run(EXACT, true, events), e.r, e.env).answer
  {
    hide LeakyStep, Run;
  }

  lemma RefilledIsAsKept(cfg: Config, events: seq<Event>, now: int)
    requires Positive(cfg) && RefillsInTime(cfg, Run(EXACT, false, events))
    requires Alike(cfg, Run(EXACT, false, events), Run(EXACT, true, events), now)
    ensures NextAsKept(cfg, events, now)
  {
    hide LeakyStep, Run, AnswersAsKept, Steady, RefillsInTime, Alike;
    var slot, kept := Run(EXACT, false, events), Run(EXACT, true, events);
    forall f | Steady(cfg, f) && Fitting(cfg, f) && now <= f.env.now
      ensures AnswersAsKept(events, f)
    {
      AlikeLater(cfg, slot, kept, now, f.env.now);
      ExpiringStepIsAlike(cfg, slot, kept, f);
      AnswersAsKeptIff(events, f);
    }
  }

  lemma DrainShowsNext(cfg: Config, events: seq<Event>, e: Event)
    requires Positive(cfg) && Refillable(cfg) && Steady(cfg, e)
    requires var slot, kept := Run(EXACT, false, events), Run(EXACT, true, events);
             && RefillsInTime(cfg, slot) && Alike(cfg, slot, kept, e.env.now)
             && Drains(cfg, slot, e) && !Spoils(cfg, slot, kept, e)
    ensures !NextAsKept(cfg, events + [e], e.env.now)
  {
    hide LeakyStep, Run, AnswersAsKept, RefillsInTime, Alike, Spoils, DrainsPastExpiry, Refillable;
    var slot, kept := Run(EXACT, false, events), Run(EXACT, true, events);
    var f := WholeBurst(cfg, slot.expireAt + 1);
    DrainMakesExpiryVisible(cfg, slot, kept, e);
    RunExtends(EXACT, false, events, e);
    RunExtends(EXACT, true, events, e);
    AnswersAsKeptIff(events + [e], f);
    assert Steady(cfg, f) && Fitting(cfg, f) && !AnswersAsKept(events + [e], f);
  }

  lemma DrainedToZero(cfg: Config, slot: Slot, e: Event)
    requires Positive(cfg) && Steady(cfg, e) && Fits(cfg, slot, e.env.now) && Drains(cfg, slot, e)
    ensures var x := LeakyStep(EXACT, false, slot, e.r, e.env).slot;
            && x.Held? && x.expireAt == slot.expireAt
            && Balance(cfg, x, e.env.now) == 0.0
  {
    hide Count, Ms, Time, Balance, LeakyStep, ExtendExpiry;
    BalanceAtMostBurst(cfg, slot, e.env.now);
    StepFromLevel(EXACT, cfg, false, slot, e);
    CountCases(EXACT, cfg, Balance(cfg, slot, e.env.now), e, true);
    BalanceNow(cfg, 0.0, e.env.now, slot.expireAt);
  }

  lemma DroppedIsFull(x: Slot, f: Event)
    requires x.Held? && x.expireAt < f.env.now && f.r.hits <= RequestBurst(f.r) && f.r.maxWait == 0 && !f.r.gregorian
    ensures var a := LeakyStep(EXACT, false, x, f.r, f.env).answer; a.Answer? && a.status == UnderLimit
  {
  }

  lemma NotYetFull(cfg: Config, y: Slot, now: int, later: int)
    requires Positive(cfg) && Fits(cfg, y, now) && Balance(cfg, y, now) == 0.0
    requires now <= later && (later as real) < now as real + Time(cfg, cfg.burst as real)
    ensures Balance(cfg, y, later) < cfg.burst as real
  {
    hide Balance, Ms, Time;
    MsPositive(cfg);
    BalanceLater(cfg, y, now, later);
    var leak := (later - now) as real / Ms(cfg);
    TimeOfLeak(cfg, (later - now) as real);
    if leak >= cfg.burst as real {
      TimeGrows(cfg, cfg.burst as real, leak);
    }
  }

  // ----- The path is reachable -----

  const TEN_A_MINUTE := Config(10, 60000, 10)

  /** A request for hits on the ten-a-minute key. */
  function Ask(hits: int, now: int, maxWait: int, drain: bool): Event {
    Event(Request(hits, 10, 60000, 10, maxWait, now, false, false, drain), Env(now, 300000, NotACode))
  }

  lemma SpentAndBooked()
    ensures NewStep(Ask(10, 0, 0, false).r, Ask(10, 0, 0, false).env).slot ==
            Held(BucketAt(TEN_A_MINUTE, 0.0, 0), 60000)
    ensures var book := Ask(1, 0, 60000, false);
            LeakyStep(EXACT, false, Held(BucketAt(TEN_A_MINUTE, 0.0, 0), 60000), book.r, book.env).slot ==
            Held(BucketAt(TEN_A_MINUTE, -1.0, 0), 66000)
  {
    hide LeakyStep;
    var book := Ask(1, 0, 60000, false);
    var slot := Held(BucketAt(TEN_A_MINUTE, 0.0, 0), 60000);
    BalanceNow(TEN_A_MINUTE, 0.0, 0, 60000);
    StepFromLevel(EXACT, TEN_A_MINUTE, false, slot, book);
  }

  lemma ThenDrained()
    ensures Drains(TEN_A_MINUTE, Held(BucketAt(TEN_A_MINUTE, -1.0, 0), 66000), Ask(5, 21000, 0, true))
  {
    assert Ms(TEN_A_MINUTE) == 6000.0;
  }

  /** Ten hits at once and one booked leave a debt of one that keeps the key until 66000. At 21000
      the balance is 2.5 and a drain empties it, so it refills at 81000, but the key expires first. */
  lemma DrainPastExpiryHappens()
    ensures var events := [Ask(10, 0, 0, false), Ask(1, 0, 60000, false)];
            Undrained(TEN_A_MINUTE, events) && Drains(TEN_A_MINUTE, Run(EXACT, false, events), Ask(5, 21000, 0, true))
  {
    hide LeakyStep, DrainsPastExpiry;
    var spend, book := Ask(10, 0, 0, false), Ask(1, 0, 60000, false);
    var events := [spend, book];
    SpentAndBooked();
    ThenDrained();
    EmptyStep(spend);
    RunExtends(EXACT, false, [], spend);
    RunExtends(EXACT, false, [spend], book);
    assert [] + [spend] == [spend] && [spend] + [book] == events;
    assert events[..0] == [] && events[..1] == [spend];
    OnlyDrainsDrain(TEN_A_MINUTE, Run(EXACT, false, []), spend);
    OnlyDrainsDrain(TEN_A_MINUTE, Run(EXACT, false, [spend]), book);
  }

  lemma OneHitHeld(keep: bool)
    ensures Run(EXACT, keep, [Ask(1, 0, 0, false)]) == Held(BucketAt(TEN_A_MINUTE, 9.0, 0), 60000)
  {
    assert [Ask(1, 0, 0, false)][..0] == [];
    hide RateOf;
  }

  lemma OneHitIsUndrained()
    ensures Undrained(TEN_A_MINUTE, [Ask(1, 0, 0, false)])
  {
    hide Run, LeakyStep;
    OnlyDrainsDrain(TEN_A_MINUTE, Run(EXACT, false, []), Ask(1, 0, 0, false));
    assert [Ask(1, 0, 0, false)][..0] == [];
  }

  /** One hit on a key of ten a minute, and eleven when it has just expired: both times too many, but ten
      remain on the key that was kept and none on the one that was dropped. */
  lemma OverBurstMakesExpiryVisible()
    ensures var spend, much := Ask(1, 0, 0, false), Ask(11, 60001, 0, false);
            Undrained(TEN_A_MINUTE, [spend]) && !AnswersAsKept([spend], much)
  {
    hide Run, LeakyStep, Undrained, AnswersAsKept, RefillsInTime, Alike;
    var spend, much := Ask(1, 0, 0, false), Ask(11, 60001, 0, false);
    OneHitHeld(false);
    OneHitHeld(true);
    OneHitIsUndrained();
    WithinLimitIsRefillable(TEN_A_MINUTE);
    ExpiringRunIsAlike(TEN_A_MINUTE, [spend], 60001);
    ExpiringStepIsAlike(TEN_A_MINUTE, Run(EXACT, false, [spend]), Run(EXACT, true, [spend]), much);
    AnswersAsKeptIff([spend], much);
  }

  lemma EmptyStep(e: Event)
    ensures LeakyStep(EXACT, false, Empty, e.r, e.env) == NewStep(e.r, e.env)
  {
  }

  lemma OnlyDrainsDrain(cfg: Config, slot: Slot, e: Event)
    requires Positive(cfg) && !e.r.drain
    ensures !Drains(cfg, slot, e)
  {
  }

  lemma CountBehind(debt: int)
    requires debt == 0 || debt == 1
    ensures var a := Count(EXACT, TEN_A_MINUTE, -debt as real, Ask(1, 0, 60000, false), debt > 0).answer;
            a.Answer? && a.status == Scheduled && a.retryAfter == 6000 * (debt + 1)
  {
    assert RateOf(60000, 10) == PerToken(6000.0);
    hide RateOf;
    if debt == 0 {
      assert Ceil(6000.0) == 6000;
    } else {
      assert Ceil(12000.0) == 12000;
    }
  }

  /** Behind no debt or a debt of one token, a token is booked six or twelve seconds ahead. */
  lemma BookedBehind(debt: int, expireAt: int)
    requires (debt == 0 || debt == 1) && expireAt >= 0
    ensures var book := Ask(1, 0, 60000, false);
            var slot := Held(BucketAt(TEN_A_MINUTE, -debt as real, 0), expireAt);
            var a := LeakyStep(EXACT, false, slot, book.r, book.env).answer;
            a.Answer? && a.status == Scheduled && a.retryAfter == 6000 * (debt + 1)
  {
    hide LeakyStep, Count, RateOf;
    BalanceNow(TEN_A_MINUTE, -debt as real, 0, expireAt);
    StepFromLevel(EXACT, TEN_A_MINUTE, false, Held(BucketAt(TEN_A_MINUTE, -debt as real, 0), expireAt),
                  Ask(1, 0, 60000, false));
    CountBehind(debt);
  }

  /** Ten hits at once and one more twice: the second and third request are booked, six and twelve
      seconds ahead. */
  lemma BookingsHappen()
    ensures var events := [Ask(10, 0, 0, false), Ask(1, 0, 60000, false), Ask(1, 0, 60000, false)];
            && LeakyReconfig.OrderlyRun(EXACT, events, 6000.0)
            && LeakyReconfig.BookedAt(EXACT, false, events, 1) && LeakyReconfig.BookedAt(EXACT, false, events, 2)
  {
    hide LeakyStep;
    var spend, book := Ask(10, 0, 0, false), Ask(1, 0, 60000, false);
    var events := [spend, book, book];
    SpentAndBooked();
    BookedBehind(0, 60000);
    BookedBehind(1, 66000);
    EmptyStep(spend);
    RunExtends(EXACT, false, [], spend);
    RunExtends(EXACT, false, [spend], book);
    assert [] + [spend] == [spend] == events[..1] && [spend] + [book] == events[..2];
  }
}
