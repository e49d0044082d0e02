/**
 Conformance of grants to the configured bucket: if every caller acts at its granted time, the
 hits between any two grants are at most one burst plus what leaks in between.
 */
module LeakyConformance {
  import opened Numbers
  import opened LeakyBucket
  import opened LeakyFixed

  /** Hits that were granted: when it was decided, how many, and when the caller may act. */
  datatype Grant = Grant(decided: int, hits: int, at: int)

  function GrantOf(e: Event, a: Answer): seq<Grant> {
    if a.Answer? && e.r.hits > 0 && (a.status == UnderLimit || a.status == Scheduled)
    then [Grant(e.env.now, e.r.hits, e.env.now + a.retryAfter)]
    else []
  }

  function Grants(tol: Tolerance, keep: bool, events: seq<Event>): seq<Grant> {
    if events == [] then []
    else
      var n := |events| - 1;
      Grants(tol, keep, events[..n]) +
      GrantOf(events[n], LeakyStep(tol, keep, Run(tol, keep, events[..n]), events[n].r, events[n].env).answer)
  }

  /** The same for a key that holds something already. */
  function GrantsFrom(tol: Tolerance, keep: bool, slot: Slot, events: seq<Event>): seq<Grant> {
    if events == [] then []
    else
      var n := |events| - 1;
      var before := RunFrom(tol, keep, slot, events[..n]);
      GrantsFrom(tol, keep, slot, events[..n]) +
      GrantOf(events[n], LeakyStep(tol, keep, before, events[n].r, events[n].env).answer)
  }

  lemma {:induction false} GrantsFromEmpty(tol: Tolerance, keep: bool, events: seq<Event>)
    ensures GrantsFrom(tol, keep, Empty, events) == Grants(tol, keep, events)
  {
    hide LeakyStep, GrantOf;
    if events == [] {
    } else {
      GrantsFromEmpty(tol, keep, events[..|events| - 1]);
      RunFromEmpty(tol, keep, events[..|events| - 1]);
    }
  }

  function SumHits(gs: seq<Grant>): int {
    if gs == [] then 0 else SumHits(gs[..|gs| - 1]) + gs[|gs| - 1].hits
  }

  // ----- One step, on levels -----

  /** The time until a level is back at burst. */
  function Deficit(cfg: Config, level: real): real
    requires cfg.limit > 0
  {
    Time(cfg, cfg.burst as real - level)
  }

  /** What counting hits does to the level, and when a grant may act. */
  lemma CountingGrants(tol: Tolerance, cfg: Config, level: real, e: Event, wasInDebt: bool)
    requires Sane(tol) && Positive(cfg) && Steady(cfg, e)
    requires level <= cfg.burst as real && SnapToZero(tol, level) == level
    ensures var d := Count(tol, cfg, level, e, wasInDebt);
            var gs := GrantOf(e, d.answer);
            var left := d.bucket.remaining;
            if gs == [] then left <= level && (left < 0.0 <==> level < 0.0)
            else
              && left <= level - e.r.hits as real + (if left < 0.0 then 0.0 else tol.token)
              && e.env.now <= gs[0].at
              && gs[0].at as real <= e.env.now as real + Deficit(cfg, level) + 1.0
              && e.env.now as real + Deficit(cfg, left) <=
                   gs[0].at as real + Time(cfg, cfg.burst as real) + tol.wait + Time(cfg, tol.token)
  {
    hide Count, Ms, Wait, Time;
    CountCases(tol, cfg, level, e, wasInDebt);
    var d := Count(tol, cfg, level, e, wasInDebt);
    var burst, h := cfg.burst as real, e.r.hits as real;
    if h > 0.0 && d.answer.status == UnderLimit {
      TimeGrows(cfg, 0.0, burst - level);
      TimeGrows(cfg, burst - d.bucket.remaining, burst + tol.token);
      TimeAdds(cfg, burst, tol.token);
      TimeGrows(cfg, 0.0, 0.0);
    } else if d.answer.status == Scheduled {
      WaitBounds(tol, cfg, level, e.r.hits, e.env.now);
      TimeGrows(cfg, h - level, burst - level);
      TimeAdds(cfg, h - level, burst);
      TimeGrows(cfg, 0.0, tol.token);
      TimeGrows(cfg, tol.token, tol.token);
      assert burst - (level - h) == (h - level) + burst;
    }
  }

  // ----- One step, on slots -----

  /** The moment the bucket would be full again if nothing more were taken. */
  function Potential(cfg: Config, slot: Slot, now: int): real
    requires cfg.limit > 0 && cfg.duration > 0
  {
    now as real + Deficit(cfg, Balance(cfg, slot, now))
  }

  /** The same, less what snapping the debt to zero could still forgive. */
  function Secured(tol: Tolerance, cfg: Config, slot: Slot, now: int): real
    requires cfg.limit > 0 && cfg.duration > 0
  {
    Potential(cfg, slot, now) - (if slot.Held? && slot.bucket.remaining < 0.0 then Time(cfg, tol.token) else 0.0)
  }

  lemma PotentialGrows(tol: Tolerance, cfg: Config, slot: Slot, now: int, later: int)
    requires Positive(cfg) && Fits(cfg, slot, now) && now <= later
    ensures Potential(cfg, slot, now) <= Potential(cfg, slot, later)
    ensures Secured(tol, cfg, slot, now) <= Secured(tol, cfg, slot, later)
  {
    hide Balance, Ms, Time, Fits;
    MsPositive(cfg);
    BalanceLater(cfg, slot, now, later);
    var balance, leak := Balance(cfg, slot, now), (later - now) as real / Ms(cfg);
    TimeOfLeak(cfg, (later - now) as real);
    TimeAdds(cfg, cfg.burst as real - balance, leak);
    TimeGrows(cfg, cfg.burst as real - balance - leak, cfg.burst as real - Balance(cfg, slot, later));
  }

  /** Settling never brings the refill closer than was secured. */
  lemma SettlingIsSecured(tol: Tolerance, cfg: Config, slot: Slot, now: int)
    requires Sane(tol) && Positive(cfg) && slot.Held? && Fits(cfg, slot, now)
    ensures var level := SnapToZero(tol, Balance(cfg, slot, now));
            Secured(tol, cfg, slot, now) <=
            now as real + Deficit(cfg, level) - (if level < 0.0 then Time(cfg, tol.token) else 0.0)
  {
    hide Time, Ms;
    MsPositive(cfg);
    var balance := Balance(cfg, slot, now);
    var burst := cfg.burst as real;
    assert balance < 0.0 ==> slot.bucket.remaining < 0.0 by {
      TimeOfLeak(cfg, Max(0, now - slot.bucket.updatedAt) as real);
    }
    var level := SnapToZero(tol, balance);
    TimeGrows(cfg, 0.0, tol.token);
    TimeGrows(cfg, tol.token, tol.token);
    TimeAdds(cfg, burst, tol.token);
    if balance < 0.0 && level == 0.0 {
      TimeGrows(cfg, burst - balance, burst + tol.token);
    } else if level != balance {
      TimeGrows(cfg, burst - balance, burst - level);
    }
  }

  /** What a step secures: a grant adds its hits, up to the tolerance; nothing takes away. */
  ghost predicate Secures(tol: Tolerance, cfg: Config, slot: Slot, e: Event, step: Step)
    requires Positive(cfg)
  {
    var gs := GrantOf(e, step.answer);
    var after := Secured(tol, cfg, step.slot, e.env.now);
    && Fits(cfg, step.slot, e.env.now)
    && (if gs == [] then Secured(tol, cfg, slot, e.env.now) <= after
        else
          && Secured(tol, cfg, slot, e.env.now) + Time(cfg, e.r.hits as real - tol.token) <= after
          && gs[0].at as real + Time(cfg, e.r.hits as real - tol.token) <= after + 1.0
          && e.env.now <= gs[0].at
          && Potential(cfg, step.slot, e.env.now) <=
               gs[0].at as real + Time(cfg, cfg.burst as real) + tol.wait + Time(cfg, tol.token))
  }

  lemma CountingSecures(tol: Tolerance, cfg: Config, level: real, e: Event, wasInDebt: bool, expireAt: int)
    requires Sane(tol) && Positive(cfg) && Steady(cfg, e)
    requires level <= cfg.burst as real && SnapToZero(tol, level) == level
    ensures var d := Count(tol, cfg, level, e, wasInDebt);
            Secures(tol, cfg, Held(BucketAt(cfg, level, e.env.now), expireAt), e,
                    Step(Held(d.bucket, expireAt), d.answer))
  {
    hide Count, Ms, Time, Balance;
    CountCases(tol, cfg, level, e, wasInDebt);
    CountingGrants(tol, cfg, level, e, wasInDebt);
    var d := Count(tol, cfg, level, e, wasInDebt);
    var left, burst, h := d.bucket.remaining, cfg.burst as real, e.r.hits as real;
    BalanceNow(cfg, level, e.env.now, expireAt);
    TimeGrows(cfg, 0.0, tol.token);
    TimeGrows(cfg, tol.token, tol.token);
    if GrantOf(e, d.answer) == [] {
      BalanceNow(cfg, left, e.env.now, expireAt);
      TimeGrows(cfg, burst - level, burst - left);
    } else {
      assert left <= level;
      BalanceNow(cfg, left, e.env.now, expireAt);
      TimeAdds(cfg, h, tol.token);
      TimeAdds(cfg, burst - level, h);
      TimeAdds(cfg, burst - level, h - tol.token);
      TimeGrows(cfg, burst - level + h - (if left < 0.0 then 0.0 else tol.token), burst - left);
    }
  }

  lemma StepSecures(tol: Tolerance, cfg: Config, keep: bool, slot: Slot, e: Event)
    requires Sane(tol) && Positive(cfg) && Steady(cfg, e) && Fits(cfg, slot, e.env.now)
    ensures Secures(tol, cfg, Lookup(slot, e.env.now, keep), e, LeakyStep(tol, keep, slot, e.r, e.env))
  {
    hide Count, Ms, Time, Balance, NewStep, ExistingStep;
    var found := Lookup(slot, e.env.now, keep);
    if found.Held? {
      var level := SnapToZero(tol, Balance(cfg, slot, e.env.now));
      BalanceAtMostBurst(cfg, slot, e.env.now);
      SettlingIsSecured(tol, cfg, slot, e.env.now);
      CountingSecures(tol, cfg, level, e, slot.bucket.remaining < 0.0, 0);
      StepFromLevel(tol, cfg, keep, slot, e);
      var step := LeakyStep(tol, keep, slot, e.r, e.env);
      BalanceNow(cfg, level, e.env.now, 0);
      SameBalance(cfg, step.slot.bucket, 0, step.slot.expireAt, e.env.now);
    } else {
      FirstStepSecures(tol, cfg, e);
    }
  }

  lemma SameBalance(cfg: Config, b: Bucket, expireAt: int, other: int, now: int)
    requires cfg.limit > 0 && cfg.duration > 0
    ensures Balance(cfg, Held(b, expireAt), now) == Balance(cfg, Held(b, other), now)
  {
  }

  lemma FirstStepSecures(tol: Tolerance, cfg: Config, e: Event)
    requires Sane(tol) && Positive(cfg) && Steady(cfg, e)
    ensures Secures(tol, cfg, Empty, e, NewStep(e.r, e.env))
  {
    hide Count, Ms, Time;
    var burst := cfg.burst as real;
    var step := NewStep(e.r, e.env);
    if e.r.maxWait > 0 || e.r.hits <= cfg.burst {
      WholeIsWhole(tol, cfg.burst);
      NewLikeFull(tol, cfg, e);
      CountingSecures(tol, cfg, burst, e, false, e.env.now + cfg.duration);
      BalanceNow(cfg, burst, e.env.now, e.env.now + cfg.duration);
      if step.slot.Empty? {
        CountCases(tol, cfg, burst, e, false);
      }
    } else {
      BalanceNow(cfg, 0.0, e.env.now, e.env.now + cfg.duration);
      TimeGrows(cfg, burst - burst, burst);
    }
  }

  // ----- Runs -----

  /** The hits granted, each request's short of the tolerance it may have gained. */
  function Weight(tol: Tolerance, gs: seq<Grant>): real {
    if gs == [] then 0.0 else Weight(tol, gs[..|gs| - 1]) + (gs[|gs| - 1].hits as real - tol.token)
  }

  lemma {:induction false} WeightOfHits(tol: Tolerance, gs: seq<Grant>)
    ensures Weight(tol, gs) == SumHits(gs) as real - tol.token * |gs| as real
  {
    if gs == [] {
    } else {
      WeightOfHits(tol, gs[..|gs| - 1]);
    }
  }

  /** From every grant on, the hits granted since fit before the moment the bucket refills, and
      before the key may expire. */
  ghost predicate Accounted(tol: Tolerance, cfg: Config, keep: bool, gs: seq<Grant>, slot: Slot, now: int)
    requires Positive(cfg)
  {
    forall i :: 0 <= i < |gs| ==>
      var due := gs[i].at as real + Time(cfg, Weight(tol, gs[i..])) - 1.0;
      && due <= Secured(tol, cfg, slot, now)
      && (!keep && slot.Held? ==> due <= Max(now, slot.expireAt + 1) as real)
  }

  lemma AccountedLater(tol: Tolerance, cfg: Config, keep: bool, gs: seq<Grant>, slot: Slot, now: int, later: int)
    requires Positive(cfg) && Fits(cfg, slot, now) && now <= later
    requires Accounted(tol, cfg, keep, gs, slot, now)
    ensures Accounted(tol, cfg, keep, gs, Lookup(slot, later, keep), later)
    ensures Fits(cfg, Lookup(slot, later, keep), later)
  {
    hide Time, Balance, Ms, Weight;
    PotentialGrows(tol, cfg, slot, now, later);
    if Lookup(slot, later, keep).Empty? {
      EmptyPotential(cfg, later);
    }
  }

  lemma EmptyPotential(cfg: Config, now: int)
    requires Positive(cfg)
    ensures Potential(cfg, Empty, now) == now as real
  {
    hide Ms;
  }

  /** Keys are kept for good, or a burst refills before they expire. */
  ghost predicate Remembered(cfg: Config, keep: bool)
    requires Positive(cfg)
  {
    keep || Refillable(cfg)
  }

  lemma SecuredNow(tol: Tolerance, cfg: Config, level: real, now: int, expireAt: int)
    requires Sane(tol) && Positive(cfg) && Refillable(cfg) && -tol.token <= level <= cfg.burst as real
    ensures Secured(tol, cfg, Held(BucketAt(cfg, level, now), expireAt), now) <= (now + cfg.duration + 1) as real
  {
    hide Time, Balance, Ms;
    var burst := cfg.burst as real;
    BalanceNow(cfg, level, now, expireAt);
    TimeAdds(cfg, burst, tol.token);
    if level < 0.0 {
      TimeGrows(cfg, burst - level, burst + tol.token);
    } else {
      TimeGrows(cfg, burst - level, burst);
    }
  }

  lemma ExtendedSecures(tol: Tolerance, cfg: Config, b: Bucket, now: int, expireAt: int, touched: int)
    requires Sane(tol) && Positive(cfg) && b == BucketAt(cfg, b.remaining, now) && b.remaining <= cfg.burst as real
    requires expireAt == ExtendExpiry(touched, b, now, cfg.duration, PerToken(Ms(cfg)))
    ensures Secured(tol, cfg, Held(b, expireAt), now) <= expireAt as real
  {
    hide Time, Balance, Ms, ExtendExpiry;
    BalanceNow(cfg, b.remaining, now, expireAt);
    ExtendedPastRefill(cfg, b, touched, now);
    SecuredAtMostPotential(tol, cfg, Held(b, expireAt), now);
  }

  /** After a step what is secured is within the expiry, unless there was no grant and the expiry moved
      no closer. */
  lemma ExpiryCovers(tol: Tolerance, cfg: Config, slot: Slot, e: Event)
    requires Sane(tol) && Positive(cfg) && Refillable(cfg) && Steady(cfg, e) && Fits(cfg, slot, e.env.now)
    ensures var step := LeakyStep(tol, false, slot, e.r, e.env);
            var found := Lookup(slot, e.env.now, false);
            step.slot.Held? ==>
              || Secured(tol, cfg, step.slot, e.env.now) <= (step.slot.expireAt + 1) as real
              || (GrantOf(e, step.answer) == [] && found.Held? && found.expireAt <= step.slot.expireAt)
  {
    hide LeakyStep, Count, Secured, Time, Ms, Balance, ExtendExpiry;
    var now, step := e.env.now, LeakyStep(tol, false, slot, e.r, e.env);
    if Lookup(slot, now, false).Empty? {
      FirstExpiry(tol, cfg, slot, e);
    } else {
      var level := SnapToZero(tol, Balance(cfg, slot, now));
      var wasInDebt := slot.bucket.remaining < 0.0;
      BalanceAtMostBurst(cfg, slot, now);
      StepFromLevel(tol, cfg, false, slot, e);
      CountCases(tol, cfg, level, e, wasInDebt);
      var d := Count(tol, cfg, level, e, wasInDebt);
      if d.extend {
        var touched := if e.r.hits != 0 && !wasInDebt then now + cfg.duration else slot.expireAt;
        ExtendedSecures(tol, cfg, d.bucket, now, step.slot.expireAt, touched);
      } else if e.r.hits != 0 && !wasInDebt {
        SecuredNow(tol, cfg, d.bucket.remaining, now, step.slot.expireAt);
      }
    }
  }

  lemma FirstExpiry(tol: Tolerance, cfg: Config, slot: Slot, e: Event)
    requires Sane(tol) && Positive(cfg) && Refillable(cfg) && Steady(cfg, e)
    requires Lookup(slot, e.env.now, false).Empty?
    ensures var step := LeakyStep(tol, false, slot, e.r, e.env);
            step.slot.Held? ==> Secured(tol, cfg, step.slot, e.env.now) <= (step.slot.expireAt + 1) as real
  {
    hide Secured, RateOf;
    var step := NewStep(e.r, e.env);
    if step.slot.Held? {
      SecuredNow(tol, cfg, step.slot.bucket.remaining, e.env.now, step.slot.expireAt);
    }
  }

  lemma WeightExtends(tol: Tolerance, cfg: Config, gs: seq<Grant>, g: Grant, i: nat)
    requires Positive(cfg) && i <= |gs|
    ensures Time(cfg, Weight(tol, (gs + [g])[i..])) ==
            (if i == |gs| then 0.0 else Time(cfg, Weight(tol, gs[i..]))) + Time(cfg, g.hits as real - tol.token)
  {
    hide Time, Ms;
    var all := (gs + [g])[i..];
    assert all[..|all| - 1] == gs[i..];
    TimeAdds(cfg, Weight(tol, gs[i..]), g.hits as real - tol.token);
  }

  lemma SecuredAtMostPotential(tol: Tolerance, cfg: Config, slot: Slot, now: int)
    requires Sane(tol) && Positive(cfg)
    ensures Secured(tol, cfg, slot, now) <= Potential(cfg, slot, now)
  {
    hide Potential, Time;
    TimeGrows(cfg, 0.0, tol.token);
    TimeGrows(cfg, tol.token, tol.token);
  }

  lemma AccountedStep(tol: Tolerance, cfg: Config, keep: bool, gs: seq<Grant>, slot: Slot, e: Event)
    requires Sane(tol) && Positive(cfg) && Steady(cfg, e) && Fits(cfg, slot, e.env.now) && Remembered(cfg, keep)
    requires Accounted(tol, cfg, keep, gs, Lookup(slot, e.env.now, keep), e.env.now)
    ensures var step := LeakyStep(tol, keep, slot, e.r, e.env);
            Accounted(tol, cfg, keep, gs + GrantOf(e, step.answer), step.slot, e.env.now)
  {
    hide Time, Balance, LeakyStep, Potential, Ms, Secured, Weight, Steady, Fits;
    var step := LeakyStep(tol, keep, slot, e.r, e.env);
    StepSecures(tol, cfg, keep, slot, e);
    if !keep {
      ExpiryCovers(tol, cfg, slot, e);
    }
    SecuredAtMostPotential(tol, cfg, step.slot, e.env.now);
    var added := GrantOf(e, step.answer);
    var all := gs + added;
    if added == [] {
      assert all == gs;
    } else {
      forall i | 0 <= i < |all|
        ensures all[i].at as real + Time(cfg, Weight(tol, all[i..])) - 1.0 <= Secured(tol, cfg, step.slot, e.env.now)
      {
        WeightExtends(tol, cfg, gs, added[0], i);
      }
    }
  }

  /** Between any two grants, the hits weigh no more than a burst and the time between them allows. */
  ghost predicate Conforms(tol: Tolerance, cfg: Config, gs: seq<Grant>)
    requires Positive(cfg)
  {
    forall i, j :: 0 <= i <= j < |gs| ==>
      gs[i].at as real + Time(cfg, Weight(tol, gs[i..j + 1])) <=
      gs[j].at as real + 1.0 + Time(cfg, cfg.burst as real) + tol.wait + Time(cfg, tol.token)
  }

  lemma ConformsStep(tol: Tolerance, cfg: Config, keep: bool, gs: seq<Grant>, slot: Slot, e: Event)
    requires Sane(tol) && Positive(cfg) && Steady(cfg, e) && Fits(cfg, slot, e.env.now) && Remembered(cfg, keep)
    requires Accounted(tol, cfg, keep, gs, Lookup(slot, e.env.now, keep), e.env.now)
    requires Conforms(tol, cfg, gs)
    ensures Conforms(tol, cfg, gs + GrantOf(e, LeakyStep(tol, keep, slot, e.r, e.env).answer))
  {
    hide Time, Balance, LeakyStep, Potential, Ms, Secured, Weight, Steady, Fits;
    var step := LeakyStep(tol, keep, slot, e.r, e.env);
    StepSecures(tol, cfg, keep, slot, e);
    AccountedStep(tol, cfg, keep, gs, slot, e);
    SecuredAtMostPotential(tol, cfg, step.slot, e.env.now);
    var all := gs + GrantOf(e, step.answer);
    forall i, j | 0 <= i <= j < |all|
      ensures all[i].at as real + Time(cfg, Weight(tol, all[i..j + 1])) <=
              all[j].at as real + 1.0 + Time(cfg, cfg.burst as real) + tol.wait + Time(cfg, tol.token)
    {
      if j < |gs| {
        assert all[i..j + 1] == gs[i..j + 1];
      } else {
        assert all[i..j + 1] == all[i..];
      }
    }
  }

  /** Grants are decided in the run, never act before that, and wait at most the ceiling. */
  ghost predicate Timed(gs: seq<Grant>, from: int, until: int, ceiling: int) {
    forall i :: 0 <= i < |gs| ==>
      from <= gs[i].decided <= until && gs[i].decided <= gs[i].at <= gs[i].decided + ceiling && gs[i].hits > 0
  }

  lemma GrantTimes(tol: Tolerance, cfg: Config, keep: bool, slot: Slot, e: Event, ceiling: int)
    requires Sane(tol) && Positive(cfg) && Steady(cfg, e) && Fits(cfg, slot, e.env.now)
    requires 0 <= ceiling && e.env.ceiling <= ceiling
    ensures Timed(GrantOf(e, LeakyStep(tol, keep, slot, e.r, e.env).answer), e.env.now, e.env.now, ceiling)
  {
    hide Time, Ms, Balance, ExistingStep, Count, Wait;
    StepSecures(tol, cfg, keep, slot, e);
    if Lookup(slot, e.env.now, keep).Held? {
      var level := SnapToZero(tol, Balance(cfg, slot, e.env.now));
      BalanceAtMostBurst(cfg, slot, e.env.now);
      StepFromLevel(tol, cfg, keep, slot, e);
      CountCases(tol, cfg, level, e, slot.bucket.remaining < 0.0);
    }
  }

  /** What a run keeps: grants that conform and are accounted for by what the key holds now. */
  ghost predicate Covered(tol: Tolerance, cfg: Config, keep: bool, gs: seq<Grant>, slot: Slot, from: int, now: int,
                          ceiling: int)
    requires Positive(cfg)
  {
    && Conforms(tol, cfg, gs) && Fits(cfg, slot, now) && Accounted(tol, cfg, keep, gs, slot, now)
    && Timed(gs, from, now, ceiling)
  }

  lemma CoveredStep(tol: Tolerance, cfg: Config, keep: bool, gs: seq<Grant>, slot: Slot, e: Event, from: int,
                    ceiling: int)
    requires Sane(tol) && Positive(cfg) && Steady(cfg, e) && Remembered(cfg, keep)
    requires 0 <= ceiling && e.env.ceiling <= ceiling && from <= e.env.now
    requires Fits(cfg, slot, e.env.now) && Accounted(tol, cfg, keep, gs, Lookup(slot, e.env.now, keep), e.env.now)
    requires Conforms(tol, cfg, gs) && Timed(gs, from, e.env.now, ceiling)
    ensures var step := LeakyStep(tol, keep, slot, e.r, e.env);
            Covered(tol, cfg, keep, gs + GrantOf(e, step.answer), step.slot, from, e.env.now, ceiling)
  {
    hide Accounted, Conforms, Fits, Steady, LeakyStep, GrantOf;
    AccountedStep(tol, cfg, keep, gs, slot, e);
    ConformsStep(tol, cfg, keep, gs, slot, e);
    StepSecures(tol, cfg, keep, slot, e);
    GrantTimes(tol, cfg, keep, slot, e, ceiling);
  }

  lemma CoveredLater(tol: Tolerance, cfg: Config, keep: bool, gs: seq<Grant>, slot: Slot, from: int, now: int,
                     ceiling: int, later: int)
    requires Positive(cfg) && Covered(tol, cfg, keep, gs, slot, from, now, ceiling) && now <= later
    ensures Conforms(tol, cfg, gs) && Timed(gs, from, later, ceiling)
    ensures Fits(cfg, slot, later) && Accounted(tol, cfg, keep, gs, Lookup(slot, later, keep), later)
  {
    hide Accounted, Conforms, Fits;
    AccountedLater(tol, cfg, keep, gs, slot, now, later);
    FitsLater(cfg, slot, now, later);
  }

  /** Whatever the key holds at the start, its debt included, what is granted from then on is covered. */
  lemma {:induction false} RunConformsFrom(tol: Tolerance, cfg: Config, keep: bool, start: Slot, events: seq<Event>,
                                           ceiling: int)
    requires Sane(tol) && Positive(cfg) && SteadyRun(cfg, events) && Remembered(cfg, keep) && 0 <= ceiling
    requires events != [] && Fits(cfg, start, events[0].env.now)
    requires forall i :: 0 <= i < |events| ==> events[i].env.ceiling <= ceiling
    ensures Covered(tol, cfg, keep, GrantsFrom(tol, keep, start, events), RunFrom(tol, keep, start, events),
                    events[0].env.now, events[|events| - 1].env.now, ceiling)
  {
    hide Covered, Accounted, Conforms, Fits, Steady, LeakyStep, GrantOf, Timed, Remembered;
    var n := |events| - 1;
    var rest, e := events[..n], events[n];
    var slot, gs := RunFrom(tol, keep, start, rest), GrantsFrom(tol, keep, start, rest);
    if n == 0 {
      NothingConforms(tol, cfg, keep, start, e.env.now, ceiling);
    } else {
      RunConformsFrom(tol, cfg, keep, start, rest, ceiling);
      CoveredLater(tol, cfg, keep, gs, slot, events[0].env.now, rest[n - 1].env.now, ceiling, e.env.now);
    }
    CoveredStep(tol, cfg, keep, gs, slot, e, events[0].env.now, ceiling);
  }

  lemma RunConforms(tol: Tolerance, cfg: Config, keep: bool, events: seq<Event>, ceiling: int)
    requires Sane(tol) && Positive(cfg) && SteadyRun(cfg, events) && Remembered(cfg, keep) && 0 <= ceiling
    requires forall i :: 0 <= i < |events| ==> events[i].env.ceiling <= ceiling
    ensures Conforms(tol, cfg, Grants(tol, keep, events))
    ensures events == [] ==> Grants(tol, keep, events) == []
    ensures events != [] ==>
              var now := events[|events| - 1].env.now;
              && Fits(cfg, Run(tol, keep, events), now)
              && Accounted(tol, cfg, keep, Grants(tol, keep, events), Run(tol, keep, events), now)
              && Timed(Grants(tol, keep, events), events[0].env.now, now, ceiling)
  {
    hide Conforms, Accounted, Timed, Run, RunFrom, GrantsFrom, SteadyRun, Remembered;
    if events == [] {
      NothingConforms(tol, cfg, keep, Empty, 0, ceiling);
    } else {
      RunConformsFrom(tol, cfg, keep, Empty, events, ceiling);
      RunFromEmpty(tol, keep, events);
      GrantsFromEmpty(tol, keep, events);
    }
  }

  lemma FitsLater(cfg: Config, slot: Slot, now: int, later: int)
    requires Fits(cfg, slot, now) && now <= later
    ensures Fits(cfg, slot, later)
  {
  }

  lemma NothingConforms(tol: Tolerance, cfg: Config, keep: bool, slot: Slot, now: int, ceiling: int)
    requires Positive(cfg)
    ensures Conforms(tol, cfg, []) && Timed([], now, now, ceiling)
    ensures Accounted(tol, cfg, keep, [], Lookup(slot, now, keep), now)
  {
  }

  // ----- What callers are promised -----

  /** Tokens that leak in over a stretch of time. */
  function Leaked(cfg: Config, tol: Tolerance, millis: int): real
    requires Positive(cfg)
  {
    (millis as real + tol.wait) / Ms(cfg)
  }

  /** What the token tolerance may add over a number of grants. */
  function Forgiven(tol: Tolerance, grants: int): real {
    tol.token * grants as real
  }

  lemma ForgivenGrows(tol: Tolerance, a: int, b: int)
    requires Sane(tol) && 0 <= a <= b
    ensures 0.0 <= Forgiven(tol, a) <= Forgiven(tol, b)
  {
  }

  lemma TimeToTokens(cfg: Config, tokens: real, extra: real, time: real)
    requires Positive(cfg) && Time(cfg, tokens) <= Time(cfg, extra) + time
    ensures Ms(cfg) > 0.0
    ensures tokens <= extra + time / Ms(cfg)
  {
    hide Time, Ms;
    MsPositive(cfg);
    TimeOfLeak(cfg, time);
    TimeAdds(cfg, extra, time / Ms(cfg));
    if tokens > extra + time / Ms(cfg) {
      TimeGrows(cfg, extra + time / Ms(cfg), tokens);
    }
  }

  /** Conformance: from grant i to grant j, if callers act when told, the hits are at most a burst
      plus the leak between the two, with a millisecond of rounding. */
  lemma Conformance(tol: Tolerance, cfg: Config, keep: bool, events: seq<Event>, i: nat, j: nat)
    requires Sane(tol) && Positive(cfg) && SteadyRun(cfg, events) && Remembered(cfg, keep)
    requires i <= j < |Grants(tol, keep, events)|
    ensures var gs := Grants(tol, keep, events);
            SumHits(gs[i..j + 1]) as real <=
            cfg.burst as real + Leaked(cfg, tol, gs[j].at - gs[i].at + 1) + Forgiven(tol, j - i + 2)
  {
    hide *;
    RunConforms(tol, cfg, keep, events, MaxCeiling(events));
    ConformsInTokens(tol, cfg, Grants(tol, keep, events), i, j);
  }

  /** The same from whatever the key holds: a stored bucket of the configuration, in debt or not, that
      expires whenever it does. */
  lemma ConformanceFrom(tol: Tolerance, cfg: Config, keep: bool, slot: Slot, events: seq<Event>, i: nat, j: nat)
    requires Sane(tol) && Positive(cfg) && SteadyRun(cfg, events) && Remembered(cfg, keep)
    requires events != [] ==> Fits(cfg, slot, events[0].env.now)
    requires i <= j < |GrantsFrom(tol, keep, slot, events)|
    ensures WithinBound(tol, cfg, GrantsFrom(tol, keep, slot, events), i, j)
  {
    hide RunFrom, SumHits, Leaked, Forgiven, Conforms, Accounted, Timed, SteadyRun, Remembered, Fits, LeakyStep,
         GrantOf;
    RunConformsFrom(tol, cfg, keep, slot, events, MaxCeiling(events));
    ConformsInTokens(tol, cfg, GrantsFrom(tol, keep, slot, events), i, j);
  }

  // ----- Which configurations conform -----

  /** Every run of the configuration conforms, in a cache that drops expired keys. */
  ghost predicate AlwaysConforms(tol: Tolerance, cfg: Config)
    requires Positive(cfg)
  {
    forall events, i, j :: SteadyRun(cfg, events) && 0 <= i <= j < |Grants(tol, false, events)| ==>
      WithinBound(tol, cfg, Grants(tol, false, events), i, j)
  }

  ghost predicate WithinBound(tol: Tolerance, cfg: Config, gs: seq<Grant>, i: nat, j: nat)
    requires Positive(cfg) && i <= j < |gs|
  {
    SumHits(gs[i..j + 1]) as real <=
    cfg.burst as real + Leaked(cfg, tol, gs[j].at - gs[i].at + 1) + Forgiven(tol, j - i + 2)
  }

  /** The k-th moment at which a key emptied each time it has just expired is full again. */
  function TakeTime(cfg: Config, k: nat): int {
    if k == 0 then 0 else TakeTime(cfg, k - 1) + cfg.duration + 1
  }

  /** The whole burst taken at each of these moments up to the n-th. */
  function Takes(cfg: Config, n: nat): seq<Event> {
    if n == 0 then [WholeBurst(cfg, 0)] else Takes(cfg, n - 1) + [WholeBurst(cfg, TakeTime(cfg, n))]
  }

  function Taken(cfg: Config, n: nat): seq<Grant> {
    (if n == 0 then [] else Taken(cfg, n - 1)) + [Grant(TakeTime(cfg, n), cfg.burst, TakeTime(cfg, n))]
  }

  lemma TakesEmpty(tol: Tolerance, cfg: Config, slot: Slot, now: int)
    requires Positive(cfg) && (slot.Held? ==> slot.expireAt < now)
    ensures var e := WholeBurst(cfg, now);
            var step := LeakyStep(tol, false, slot, e.r, e.env);
            && step.slot == Held(BucketAt(cfg, 0.0, now), now + cfg.duration)
            && GrantOf(e, step.answer) == [Grant(now, cfg.burst, now)]
  {
    hide RateOf, ExistingStep;
  }

  lemma GrantsExtend(tol: Tolerance, keep: bool, events: seq<Event>, e: Event)
    ensures Grants(tol, keep, events + [e]) ==
            Grants(tol, keep, events) + GrantOf(e, LeakyStep(tol, keep, Run(tol, keep, events), e.r, e.env).answer)
  {
    hide LeakyStep, GrantOf;
    assert (events + [e])[..|events|] == events;
  }

  lemma OneMoreTake(cfg: Config, n: nat)
    requires n > 0
    ensures Takes(cfg, n) == Takes(cfg, n - 1) + [WholeBurst(cfg, TakeTime(cfg, n))]
    ensures Taken(cfg, n) == Taken(cfg, n - 1) + [Grant(TakeTime(cfg, n), cfg.burst, TakeTime(cfg, n))]
    ensures TakeTime(cfg, n) == TakeTime(cfg, n - 1) + cfg.duration + 1
  {
    hide WholeBurst;
  }

  lemma FirstTake(tol: Tolerance, cfg: Config)
    requires Positive(cfg)
    ensures Run(tol, false, Takes(cfg, 0)) ==
            Held(BucketAt(cfg, 0.0, TakeTime(cfg, 0)), TakeTime(cfg, 0) + cfg.duration)
    ensures Grants(tol, false, Takes(cfg, 0)) == Taken(cfg, 0)
  {
    hide LeakyStep, GrantOf;
    TakesEmpty(tol, cfg, Empty, 0);
    assert Takes(cfg, 0)[..0] == [];
  }

  lemma {:induction false} TakesAreGranted(tol: Tolerance, cfg: Config, n: nat)
    requires Positive(cfg)
    ensures Run(tol, false, Takes(cfg, n)) ==
            Held(BucketAt(cfg, 0.0, TakeTime(cfg, n)), TakeTime(cfg, n) + cfg.duration)
    ensures Grants(tol, false, Takes(cfg, n)) == Taken(cfg, n)
  {
    hide *;
    if n == 0 {
      FirstTake(tol, cfg);
    } else {
      OneMoreTake(cfg, n);
      var rest, e := Takes(cfg, n - 1), WholeBurst(cfg, TakeTime(cfg, n));
      TakesAreGranted(tol, cfg, n - 1);
      RunExtends(tol, false, rest, e);
      GrantsExtend(tol, false, rest, e);
      TakesEmpty(tol, cfg, Run(tol, false, rest), TakeTime(cfg, n));
    }
  }

  lemma {:induction false} TakesAreSteady(cfg: Config, n: nat)
    requires Positive(cfg)
    ensures SteadyRun(cfg, Takes(cfg, n)) && |Takes(cfg, n)| == n + 1
    ensures Takes(cfg, n)[n].env.now == TakeTime(cfg, n)
  {
    if n == 0 {
    } else {
      TakesAreSteady(cfg, n - 1);
      var rest, e := Takes(cfg, n - 1), WholeBurst(cfg, TakeTime(cfg, n));
      forall i, j | 0 <= i < j < n + 1
        ensures Takes(cfg, n)[i].env.now <= Takes(cfg, n)[j].env.now
      {
        if j == n && i < n - 1 {
          assert rest[i].env.now <= rest[n - 1].env.now;
        }
      }
    }
  }

  lemma {:induction false} TakenAt(cfg: Config, n: nat)
    ensures |Taken(cfg, n)| == n + 1 && Taken(cfg, n)[0].at == 0 && Taken(cfg, n)[n].at == TakeTime(cfg, n)
  {
    if n == 0 {
    } else {
      TakenAt(cfg, n - 1);
    }
  }

  lemma WeighOneMore(tol: Tolerance, gs: seq<Grant>, g: Grant)
    ensures Weight(tol, gs + [g]) == Weight(tol, gs) + (g.hits as real - tol.token)
  {
    assert (gs + [g])[..|gs|] == gs;
  }

  lemma OneMoreGain(n: nat, gain: real)
    requires n > 0
    ensures n as real * gain == (n - 1) as real * gain + gain
  {
  }

  lemma FirstGain(tol: Tolerance, cfg: Config, gain: real)
    requires Positive(cfg)
    ensures Time(cfg, Weight(tol, Taken(cfg, 0))) ==
            TakeTime(cfg, 0) as real + Time(cfg, cfg.burst as real - tol.token) + 0 as real * gain
  {
    hide Time;
    WeighOneMore(tol, [], Grant(0, cfg.burst, 0));
    assert Taken(cfg, 0) == [] + [Grant(0, cfg.burst, 0)];
  }

  /** What the takes gain on the leak, each the same. */
  lemma {:induction false} TakenGains(tol: Tolerance, cfg: Config, n: nat, gain: real)
    requires Positive(cfg) && gain == Time(cfg, cfg.burst as real - tol.token) - (cfg.duration + 1) as real
    ensures Time(cfg, Weight(tol, Taken(cfg, n))) ==
            TakeTime(cfg, n) as real + Time(cfg, cfg.burst as real - tol.token) + n as real * gain
  {
    hide *;
    if n == 0 {
      FirstGain(tol, cfg, gain);
    } else {
      TakenGains(tol, cfg, n - 1, gain);
      OneMoreTake(cfg, n);
      WeighOneMore(tol, Taken(cfg, n - 1), Grant(TakeTime(cfg, n), cfg.burst, TakeTime(cfg, n)));
      TimeAdds(cfg, Weight(tol, Taken(cfg, n - 1)), cfg.burst as real - tol.token);
      OneMoreGain(n, gain);
    }
  }

  lemma EnoughTakes(gain: real, slack: real) returns (n: nat)
    requires gain > 0.0 && slack >= 0.0
    ensures n as real * gain > slack
  {
    n := (slack / gain).Floor + 1;
    assert slack / gain * gain == slack;
    assert n as real * gain > slack / gain * gain;
  }

  /** A burst that takes longer to refill than the key lives, by more than the tolerance forgives, is
      granted more than the bound when taken again and again just after the key has expired. */
  lemma SlowRefillBreaks(tol: Tolerance, cfg: Config)
    requires Sane(tol) && Positive(cfg) && Time(cfg, cfg.burst as real - tol.token) > (cfg.duration + 1) as real
    ensures !AlwaysConforms(tol, cfg)
  {
    hide Ms, Time, Grants, SteadyRun, WithinBound;
    var gain := Time(cfg, cfg.burst as real - tol.token) - (cfg.duration + 1) as real;
    TimeGrows(cfg, 0.0, tol.token);
    TimeGrows(cfg, tol.token, tol.token);
    var n := EnoughTakes(gain, 1.0 + tol.wait + Time(cfg, tol.token) + Time(cfg, tol.token));
    var events := Takes(cfg, n);
    TakesAreGranted(tol, cfg, n);
    TakesAreSteady(cfg, n);
    TakenAt(cfg, n);
    TakenGains(tol, cfg, n, gain);
    TakenOverBound(tol, cfg, n);
    assert !WithinBound(tol, cfg, Grants(tol, false, events), 0, n);
  }

  lemma TakenOverBound(tol: Tolerance, cfg: Config, n: nat)
    requires Sane(tol) && Positive(cfg) && |Taken(cfg, n)| == n + 1
    requires Time(cfg, Weight(tol, Taken(cfg, n))) >
             TakeTime(cfg, n) as real + Time(cfg, cfg.burst as real - tol.token) +
             1.0 + tol.wait + Time(cfg, tol.token) + Time(cfg, tol.token)
    ensures !WithinBound(tol, cfg, Taken(cfg, n), 0, n)
  {
    hide Ms, Time, Taken, Weight;
    var gs, b := Taken(cfg, n), cfg.burst as real;
    TakenAt(cfg, n);
    assert gs[0..n + 1] == gs;
    var leak := TakeTime(cfg, n) as real + 1.0 + tol.wait;
    MsPositive(cfg);
    TimeOfLeak(cfg, leak);
    TimeAdds(cfg, b, tol.token);
    TimeAdds(cfg, b + tol.token, leak / Ms(cfg));
    if WithinBound(tol, cfg, gs, 0, n) {
      BoundWeighs(tol, cfg, gs, n, leak);
      TimeGrows(cfg, Weight(tol, gs), b + tol.token + leak / Ms(cfg));
    }
  }

  lemma BoundWeighs(tol: Tolerance, cfg: Config, gs: seq<Grant>, n: nat, leak: real)
    requires Positive(cfg) && |gs| == n + 1 && gs[0..n + 1] == gs && WithinBound(tol, cfg, gs, 0, n)
    requires leak == (gs[n].at - gs[0].at + 1) as real + tol.wait
    ensures Ms(cfg) > 0.0 && Weight(tol, gs) <= cfg.burst as real + tol.token + leak / Ms(cfg)
  {
    hide Ms, Weight, SumHits;
    MsPositive(cfg);
    WeightOfHits(tol, gs);
    assert tol.token * (n + 2) as real == tol.token * (n + 1) as real + tol.token;
  }

  /** In a cache that drops expired keys, a configuration always conforms if and only if its burst
      refills by the time a key untouched since counts as expired. */
  lemma ConformsIff(tol: Tolerance, cfg: Config)
    requires Sane(tol) && tol.token == 0.0 && Positive(cfg)
    ensures AlwaysConforms(tol, cfg) <==> Refillable(cfg)
  {
    if Refillable(cfg) {
      RefillableConforms(tol, cfg);
    } else {
      SlowRefillBreaks(tol, cfg);
    }
  }

  lemma RefillableConforms(tol: Tolerance, cfg: Config)
    requires Sane(tol) && Positive(cfg) && Refillable(cfg)
    ensures AlwaysConforms(tol, cfg)
  {
    hide Grants, SteadyRun, Refillable, SumHits, Leaked, Forgiven;
    forall events, i, j | SteadyRun(cfg, events) && 0 <= i <= j < |Grants(tol, false, events)|
      ensures WithinBound(tol, cfg, Grants(tol, false, events), i, j)
    {
      Conformance(tol, cfg, false, events, i, j);
    }
  }

  lemma ConformsInTokens(tol: Tolerance, cfg: Config, gs: seq<Grant>, i: nat, j: nat)
    requires Positive(cfg) && Conforms(tol, cfg, gs) && i <= j < |gs|
    ensures SumHits(gs[i..j + 1]) as real <=
            cfg.burst as real + Leaked(cfg, tol, gs[j].at - gs[i].at + 1) + Forgiven(tol, j - i + 2)
  {
    hide Time, Ms;
    var part := gs[i..j + 1];
    WeightOfHits(tol, part);
    TimeAdds(cfg, cfg.burst as real, tol.token);
    TimeToTokens(cfg, Weight(tol, part), cfg.burst as real + tol.token, (gs[j].at - gs[i].at + 1) as real + tol.wait);
  }

  function MaxCeiling(events: seq<Event>): (c: int)
    ensures 0 <= c && forall i :: 0 <= i < |events| ==> events[i].env.ceiling <= c
  {
    if events == [] then 0
    else Max(events[|events| - 1].env.ceiling, MaxCeiling(events[..|events| - 1]))
  }

  /** The hits granted at moments between two times. */
  function HitsWithin(gs: seq<Grant>, lo: int, hi: int): int {
    if gs == [] then 0
    else
      var g := gs[|gs| - 1];
      HitsWithin(gs[..|gs| - 1], lo, hi) + (if lo <= g.at <= hi then g.hits else 0)
  }

  lemma {:induction false} HitsFromFirst(gs: seq<Grant>, lo: int, hi: int, i: nat)
    requires i <= |gs| && forall k :: 0 <= k < |gs| ==> gs[k].hits > 0
    requires forall k :: 0 <= k < i ==> !(lo <= gs[k].at <= hi)
    ensures HitsWithin(gs, lo, hi) <= SumHits(gs[i..])
  {
    if i == |gs| {
      if gs != [] {
        HitsFromFirst(gs[..|gs| - 1], lo, hi, i - 1);
      }
    } else {
      HitsFromFirst(gs[..|gs| - 1], lo, hi, i);
      assert gs[i..][..|gs| - i - 1] == gs[..|gs| - 1][i..];
    }
  }

  function FirstWithin(gs: seq<Grant>, lo: int, hi: int, from: nat): (i: nat)
    requires from <= |gs|
    ensures from <= i <= |gs|
    ensures forall k :: from <= k < i ==> !(lo <= gs[k].at <= hi)
    ensures i < |gs| ==> lo <= gs[i].at <= hi
    decreases |gs| - from
  {
    if from == |gs| || lo <= gs[from].at <= hi then from else FirstWithin(gs, lo, hi, from + 1)
  }

  lemma ConformsPrefix(tol: Tolerance, cfg: Config, gs: seq<Grant>)
    requires Positive(cfg) && Conforms(tol, cfg, gs) && gs != []
    ensures Conforms(tol, cfg, gs[..|gs| - 1])
  {
    hide Time, Weight;
    var init := gs[..|gs| - 1];
    forall i, j | 0 <= i <= j < |init|
      ensures init[i].at as real + Time(cfg, Weight(tol, init[i..j + 1])) <=
              init[j].at as real + 1.0 + Time(cfg, cfg.burst as real) + tol.wait + Time(cfg, tol.token)
    {
      assert init[i..j + 1] == gs[i..j + 1];
    }
  }

  lemma LeakedGrows(cfg: Config, tol: Tolerance, a: int, b: int)
    requires Sane(tol) && Positive(cfg) && 0 <= a <= b
    ensures 0.0 <= Leaked(cfg, tol, a) <= Leaked(cfg, tol, b)
  {
    hide Ms;
    MsPositive(cfg);
    TimeOfLeak(cfg, a as real + tol.wait);
    TimeOfLeak(cfg, (b - a) as real);
    LeakAdds(cfg, a as real + tol.wait, (b - a) as real);
  }

  /** In any stretch of time, conforming grants take at most a burst plus the leak. */
  lemma {:induction false} WindowBound(tol: Tolerance, cfg: Config, gs: seq<Grant>, lo: int, hi: int)
    requires Sane(tol) && Positive(cfg) && Conforms(tol, cfg, gs) && lo <= hi
    requires forall k :: 0 <= k < |gs| ==> gs[k].hits > 0
    ensures HitsWithin(gs, lo, hi) as real <=
            cfg.burst as real + Leaked(cfg, tol, hi - lo + 1) + Forgiven(tol, |gs| + 1)
  {
    hide Ms, Time, Conforms, Leaked, Forgiven;
    var n := |gs| - 1;
    LeakedGrows(cfg, tol, 0, hi - lo + 1);
    ForgivenGrows(tol, 0, 1);
    if gs == [] {
    } else if lo <= gs[n].at <= hi {
      var i := FirstWithin(gs, lo, hi, 0);
      HitsFromFirst(gs, lo, hi, i);
      assert gs[i..n + 1] == gs[i..];
      ConformsInTokens(tol, cfg, gs, i, n);
      if gs[i].at <= gs[n].at {
        LeakedGrows(cfg, tol, gs[n].at - gs[i].at + 1, hi - lo + 1);
      } else {
        LeakedMonotone(cfg, tol, gs[n].at - gs[i].at + 1, hi - lo + 1);
      }
      ForgivenGrows(tol, n - i + 2, |gs| + 1);
    } else {
      ConformsPrefix(tol, cfg, gs);
      ForgivenGrows(tol, |gs|, |gs| + 1);
      WindowBound(tol, cfg, gs[..n], lo, hi);
    }
  }

  lemma LeakedMonotone(cfg: Config, tol: Tolerance, a: int, b: int)
    requires Positive(cfg) && a <= b
    ensures Leaked(cfg, tol, a) <= Leaked(cfg, tol, b)
  {
    hide Ms;
    MsPositive(cfg);
    TimeOfLeak(cfg, (b - a) as real);
    LeakAdds(cfg, a as real + tol.wait, (b - a) as real);
  }

  // ----- Losing the bucket once -----

  lemma {:induction false} HitsOfBoth(a: seq<Grant>, b: seq<Grant>, lo: int, hi: int)
    ensures HitsWithin(a + b, lo, hi) == HitsWithin(a, lo, hi) + HitsWithin(b, lo, hi)
  {
    if b == [] {
      assert a + b == a;
    } else {
      HitsOfBoth(a, b[..|b| - 1], lo, hi);
      assert (a + b)[..|a + b| - 1] == a + b[..|b| - 1];
    }
  }

  lemma {:induction false} HitsNarrowed(gs: seq<Grant>, lo: int, hi: int, lo': int, hi': int)
    requires forall k :: 0 <= k < |gs| && lo <= gs[k].at <= hi ==> lo' <= gs[k].at <= hi'
    requires lo <= lo' && hi' <= hi
    ensures HitsWithin(gs, lo, hi) == HitsWithin(gs, lo', hi')
  {
    if gs == [] {
    } else {
      HitsNarrowed(gs[..|gs| - 1], lo, hi, lo', hi');
    }
  }

  lemma {:induction false} HitsWithinNothing(gs: seq<Grant>, lo: int, hi: int)
    requires hi < lo
    ensures HitsWithin(gs, lo, hi) == 0
  {
    if gs == [] {
    } else {
      HitsWithinNothing(gs[..|gs| - 1], lo, hi);
    }
  }

  lemma MaybeWindowBound(tol: Tolerance, cfg: Config, gs: seq<Grant>, lo: int, hi: int, length: int)
    requires Sane(tol) && Positive(cfg) && Conforms(tol, cfg, gs) && 0 <= length && hi - lo <= length
    requires forall k :: 0 <= k < |gs| ==> gs[k].hits > 0
    ensures HitsWithin(gs, lo, hi) as real <= cfg.burst as real + Leaked(cfg, tol, length + 1) + Forgiven(tol, |gs| + 1)
  {
    hide Ms, Time, Conforms, Leaked, Forgiven;
    LeakedGrows(cfg, tol, 0, length + 1);
    ForgivenGrows(tol, 0, |gs| + 1);
    if lo <= hi {
      WindowBound(tol, cfg, gs, lo, hi);
      LeakedGrows(cfg, tol, hi - lo + 1, length + 1);
    } else {
      HitsWithinNothing(gs, lo, hi);
    }
  }

  lemma LeakedSplit(cfg: Config, tol: Tolerance, a: int, b: int)
    requires Positive(cfg)
    ensures Ms(cfg) > 0.0
    ensures Leaked(cfg, tol, a) + Leaked(cfg, tol, b) == ((a + b) as real + 2.0 * tol.wait) / Ms(cfg)
  {
    hide Ms;
    MsPositive(cfg);
    LeakAdds(cfg, a as real + tol.wait, b as real + tol.wait);
  }

  lemma TwoBursts(tol: Tolerance, cfg: Config, gs: seq<Grant>, gs': seq<Grant>, lost: int, ceiling: int, lo: int,
                  hi: int)
    requires Sane(tol) && Positive(cfg) && 0 <= ceiling && lo <= lost <= hi
    requires Conforms(tol, cfg, gs) && Conforms(tol, cfg, gs')
    requires forall k :: 0 <= k < |gs| ==> gs[k].hits > 0 && (gs[k].at <= hi ==> gs[k].at <= lost + ceiling)
    requires forall k :: 0 <= k < |gs'| ==> gs'[k].hits > 0 && (lo <= gs'[k].at <= hi ==> lost <= gs'[k].at)
    ensures Ms(cfg) > 0.0
    ensures HitsWithin(gs + gs', lo, hi) as real <=
            2.0 * cfg.burst as real + ((hi - lo + ceiling + 2) as real + 2.0 * tol.wait) / Ms(cfg)
            + Forgiven(tol, |gs| + 1) + Forgiven(tol, |gs'| + 1)
  {
    hide Ms, Conforms, Leaked, Forgiven, HitsWithin;
    HitsOfBoth(gs, gs', lo, hi);
    HitsNarrowed(gs, lo, hi, lo, Min(hi, lost + ceiling));
    HitsNarrowed(gs', lo, hi, lost, hi);
    MaybeWindowBound(tol, cfg, gs, lo, Min(hi, lost + ceiling), lost + ceiling - lo);
    MaybeWindowBound(tol, cfg, gs', lost, hi, hi - lost);
    LeakedSplit(cfg, tol, lost + ceiling - lo + 1, hi - lost + 1);
  }

  lemma CeilingsOfBoth(before: seq<Event>, after: seq<Event>, ceiling: int)
    requires forall e :: e in before + after ==> e.env.ceiling <= ceiling
    ensures forall i :: 0 <= i < |before| ==> before[i].env.ceiling <= ceiling
    ensures forall i :: 0 <= i < |after| ==> after[i].env.ceiling <= ceiling
  {
    assert forall i :: 0 <= i < |before| ==> before[i] in before + after;
    assert forall i :: 0 <= i < |after| ==> after[i] in before + after;
  }

  /** The moment of the loss, within a stretch of time. */
  function LostAt(before: seq<Event>, lo: int, hi: int): int {
    if before == [] then lo else Max(lo, Min(hi, before[|before| - 1].env.now))
  }

  lemma LossSplits(before: seq<Event>, after: seq<Event>, gs: seq<Grant>, gs': seq<Grant>, ceiling: int, lo: int,
                   hi: int)
    requires lo <= hi && 0 <= ceiling
    requires before != [] && after != [] ==> before[|before| - 1].env.now <= after[0].env.now
    requires if before == [] then gs == []
             else Timed(gs, before[0].env.now, before[|before| - 1].env.now, ceiling)
    requires if after == [] then gs' == [] else Timed(gs', after[0].env.now, after[|after| - 1].env.now, ceiling)
    ensures lo <= LostAt(before, lo, hi) <= hi
    ensures forall k :: 0 <= k < |gs| ==>
              gs[k].hits > 0 && (gs[k].at <= hi ==> gs[k].at <= LostAt(before, lo, hi) + ceiling)
    ensures forall k :: 0 <= k < |gs'| ==>
              gs'[k].hits > 0 && (lo <= gs'[k].at <= hi ==> LostAt(before, lo, hi) <= gs'[k].at)
  {
  }

  /** One state loss: whatever was booked before it and granted after it, no stretch of time sees
      more than two bursts and the leak over it and the ceiling. */
  lemma OneStateLoss(tol: Tolerance, cfg: Config, keep: bool, before: seq<Event>, after: seq<Event>,
                     ceiling: int, lo: int, hi: int)
    requires Sane(tol) && Positive(cfg) && Remembered(cfg, keep) && 0 <= ceiling && lo <= hi
    requires SteadyRun(cfg, before) && SteadyRun(cfg, after)
    requires before != [] && after != [] ==> before[|before| - 1].env.now <= after[0].env.now
    requires forall e :: e in before + after ==> e.env.ceiling <= ceiling
    ensures Ms(cfg) > 0.0
    ensures var gs, gs' := Grants(tol, keep, before), Grants(tol, keep, after);
            HitsWithin(gs + gs', lo, hi) as real <=
            2.0 * cfg.burst as real + ((hi - lo + ceiling + 2) as real + 2.0 * tol.wait) / Ms(cfg)
            + Forgiven(tol, |gs| + 1) + Forgiven(tol, |gs'| + 1)
  {
    hide *;
    var gs, gs' := Grants(tol, keep, before), Grants(tol, keep, after);
    CeilingsOfBoth(before, after, ceiling);
    RunConforms(tol, cfg, keep, before, ceiling);
    RunConforms(tol, cfg, keep, after, ceiling);
    LossSplits(before, after, gs, gs', ceiling, lo, hi);
    TwoBursts(tol, cfg, gs, gs', LostAt(before, lo, hi), ceiling, lo, hi);
  }
}
