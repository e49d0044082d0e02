/**
 Debt is bounded in time by the server's ceiling on a booked wait, across every change of
 configuration, and so is the debt a cache eviction forgets. The one way around it is a request with a
 negative rate or burst, which leaves debt that nobody booked.
 */
module LeakyCeiling {
  import opened Numbers
  import opened LeakyBucket
  import opened LeakyReconfig

  /** A request checked on entry, at a server with the given ceiling. What the tolerances can hide is
      bounded by the rate, and needs a stamp that is not ahead of the owner's clock. */
  ghost predicate Checked(tol: Tolerance, e: Event, ceiling: int, bound: real) {
    && Validated(e.r) && e.env.ceiling <= ceiling
    && (tol.token == 0.0 ||
        (&& e.r.createdAt <= e.env.now
         && RateWithin(e.r.duration, e.r.limit, bound)
         && RateWithin(RequestDuration(e.r, e.env), e.r.limit, bound)))
  }

  /** The request leaves debt that nobody booked: its burst is negative, or crediting its rate takes a
      key that owes nothing below zero. */
  ghost predicate Sinks(tol: Tolerance, found: Slot, e: Event) {
    match found
    case Empty => e.r.hits <= RequestBurst(e.r) < 0
    case Held(b, _) =>
      var now := Clock(b, e.r, e.env);
      || NewBurst(tol, b, e.r, now) < 0
      || (!e.r.reset && !Owes(tol, b, e.env.now) && Credited(b, e.r, e.env, now) < -tol.token)
  }

  /** The longest a debt may take to clear. The slack is what the tolerances hide. */
  function DebtHorizon(tol: Tolerance, ceiling: int, bound: real): real {
    ceiling as real + tol.wait + tol.token * bound
  }

  ghost predicate DebtBounded(tol: Tolerance, slot: Slot, now: int, ceiling: int, bound: real) {
    slot.Held? ==>
      var b := slot.bucket;
      && (b.burst >= 0 || b.remaining >= 0.0)
      && (tol.token == 0.0 || (b.updatedAt <= now && RateWithin(b.duration, b.limit, bound)))
      && (b.remaining < -tol.token ==>
            Usable(StoredRate(b)) && ClearAt(b) <= now as real + DebtHorizon(tol, ceiling, bound))
  }

  /** Where nothing booked is owed, a request that does not sink finds at most the tolerance missing. */
  lemma SettledAboveFloor(tol: Tolerance, b: Bucket, expireAt: int, e: Event)
    requires Sane(tol) && (e.r.gregorian ==> e.env.span.Span?) && (b.burst >= 0 || b.remaining >= 0.0)
    requires !Sinks(tol, Held(b, expireAt), e)
    requires e.r.reset || !Owes(tol, b, e.env.now)
    ensures Settled(tol, b, e.r, e.env).remaining >= -tol.token
  {
    hide RateOf, CreditedLeak;
    var r, env := e.r, e.env;
    var now := Clock(b, r, env);
    assert NewBurst(tol, b, r, now) >= 0;
    if !r.reset {
      if b.remaining < 0.0 && Usable(StoredRate(b)) {
        assert CreditRate(b, r, env) == StoredRate(b);
        assert SnapToZero(tol, Credited(b, r, env, now)) >= 0.0;
      }
      assert Rescaled(tol, b, r, env, now) == Credited(b, r, env, now);
    }
  }

  /** Counting hits takes a bucket further below zero only by booking. */
  lemma CountingStaysAboveFloor(tol: Tolerance, s: Bucket, r: Request, env: Env, now: int, rate: Rate, wasInDebt: bool)
    requires Sane(tol) && Validated(r) && s.burst >= 0
    ensures var d := CountHits(tol, s, r, env, now, rate, wasInDebt);
            d.answer.Answer? &&
            (d.answer.status == Scheduled || d.bucket.remaining >= -tol.token || d.bucket.remaining == s.remaining)
  {
    hide FullAt, WholeRate;
  }

  lemma SmallDebtClearsSoon(tol: Tolerance, b: Bucket, now: int, ceiling: int, bound: real)
    requires Sane(tol) && ceiling >= 0 && b.updatedAt <= now && -tol.token <= b.remaining
    requires Usable(StoredRate(b)) && RateWithin(b.duration, b.limit, bound)
    ensures ClearAt(b) <= now as real + DebtHorizon(tol, ceiling, bound)
  {
    hide RateOf;
    var ms := StoredRate(b).ms;
    assert (b.remaining + tol.token) * ms >= 0.0;
    assert tol.token * ms <= tol.token * bound;
    assert (b.remaining + tol.token) * ms == b.remaining * ms + tol.token * ms;
  }

  lemma BookingWithinCeiling(tol: Tolerance, keep: bool, slot: Slot, e: Event, ceiling: int, bound: real)
    requires Sane(tol) && Checked(tol, e, ceiling, bound) && ceiling >= 0 && bound >= 0.0
    requires var a := LeakyStep(tol, keep, slot, e.r, e.env).answer; a.Answer? && a.status == Scheduled
    ensures var slot' := LeakyStep(tol, keep, slot, e.r, e.env).slot;
            && slot'.Held? && Usable(StoredRate(slot'.bucket))
            && ClearAt(slot'.bucket) <= e.env.now as real + DebtHorizon(tol, ceiling, bound)
  {
    hide LeakyStep, RateOf, ClearAt, Ceil;
    BookingOutcome(tol, keep, slot, e.r, e.env);
    assert tol.token * bound >= 0.0;
  }

  /** What a request leaves below the floor was either booked by it or owed before it. */
  lemma DeepDebtIsOld(tol: Tolerance, b: Bucket, expireAt: int, e: Event)
    requires Sane(tol) && Validated(e.r) && (e.r.gregorian ==> e.env.span.Span?) && (b.burst >= 0 || b.remaining >= 0.0)
    requires !Sinks(tol, Held(b, expireAt), e)
    ensures var step := ExistingStep(tol, b, expireAt, e.r, e.env);
            && step.slot.Held? && step.answer.Answer?
            && (step.slot.bucket.remaining < -tol.token && step.answer.status != Scheduled ==>
                  && !e.r.reset && Owes(tol, b, e.env.now)
                  && Usable(StoredRate(step.slot.bucket)) && ClearAt(step.slot.bucket) == ClearAt(b))
  {
    hide Settled, SettledRate, CountHits, RateOf, NewExpiry, ClearAt, Owes, Credited;
    var r, env := e.r, e.env;
    var s := Settled(tol, b, r, env);
    SettledBurst(tol, b, e);
    CountingStaysAboveFloor(tol, s, r, env, Clock(b, r, env), SettledRate(tol, b, r, env), WasInDebt(b, r));
    CountingKeepsConfig(tol, s, r, env, Clock(b, r, env), SettledRate(tol, b, r, env), WasInDebt(b, r));
    if r.reset || !Owes(tol, b, env.now) {
      SettledAboveFloor(tol, b, expireAt, e);
    } else if s.remaining < 0.0 {
      SettlingKeepsClearAt(tol, b, r, env);
    }
  }

  lemma SettledBurst(tol: Tolerance, b: Bucket, e: Event)
    ensures var s := Settled(tol, b, e.r, e.env); s.burst == NewBurst(tol, b, e.r, Clock(b, e.r, e.env))
    ensures e.r.createdAt <= e.env.now ==> Settled(tol, b, e.r, e.env).updatedAt <= Max(b.updatedAt, e.env.now)
    ensures var s := Settled(tol, b, e.r, e.env);
            (s.duration, s.limit) == (b.duration, b.limit) || (s.duration, s.limit) == (e.r.duration, e.r.limit)
  {
    hide SettledBalance, DebtAt;
  }

  lemma ExistingStaysBounded(tol: Tolerance, b: Bucket, expireAt: int, e: Event, ceiling: int, bound: real, before: int)
    requires Sane(tol) && Checked(tol, e, ceiling, bound) && ceiling >= 0 && bound >= 0.0 && before <= e.env.now
    requires DebtBounded(tol, Held(b, expireAt), before, ceiling, bound) && !Sinks(tol, Held(b, expireAt), e)
    ensures DebtBounded(tol, ExistingStep(tol, b, expireAt, e.r, e.env).slot, e.env.now, ceiling, bound)
  {
    hide Settled, SettledRate, CountHits, RateOf, NewExpiry, ClearAt, Owes, RateWithin, DebtHorizon, Credited;
    var r, env := e.r, e.env;
    if !(r.gregorian && env.span.NotACode?) {
      var step := ExistingStep(tol, b, expireAt, r, env);
      DeepDebtIsOld(tol, b, expireAt, e);
      SettledBurst(tol, b, e);
      CountingKeepsConfig(tol, Settled(tol, b, r, env), r, env, Clock(b, r, env), SettledRate(tol, b, r, env),
                          WasInDebt(b, r));
      if step.answer.status == Scheduled {
        BookingWithinCeiling(tol, true, Held(b, expireAt), e, ceiling, bound);
      } else if step.slot.bucket.remaining < -tol.token && -tol.token <= b.remaining {
        OwesIsDebt(tol, b, env.now);
        SmallDebtClearsSoon(tol, b, before, ceiling, bound);
      }
    }
  }

  lemma OwesIsDebt(tol: Tolerance, b: Bucket, now: int)
    requires Owes(tol, b, now)
    ensures Usable(StoredRate(b)) && b.remaining < 0.0
  {
  }

  lemma NewStaysBounded(tol: Tolerance, e: Event, ceiling: int, bound: real)
    requires Sane(tol) && Checked(tol, e, ceiling, bound) && !Sinks(tol, Empty, e)
    ensures DebtBounded(tol, NewStep(e.r, e.env).slot, e.env.now, ceiling, bound)
  {
    hide RateOf, DebtHorizon;
  }

  /** A step that does not sink keeps the clearing moment within the ceiling. */
  lemma StepStaysBounded(tol: Tolerance, keep: bool, slot: Slot, e: Event, ceiling: int, bound: real, before: int)
    requires Sane(tol) && Checked(tol, e, ceiling, bound) && ceiling >= 0 && bound >= 0.0 && before <= e.env.now
    requires DebtBounded(tol, slot, before, ceiling, bound) && !Sinks(tol, Lookup(slot, e.env.now, keep), e)
    ensures DebtBounded(tol, LeakyStep(tol, keep, slot, e.r, e.env).slot, e.env.now, ceiling, bound)
  {
    hide ExistingStep, NewStep, DebtBounded, Checked, Sinks;
    if Lookup(slot, e.env.now, keep).Held? {
      ExistingStaysBounded(tol, slot.bucket, slot.expireAt, e, ceiling, bound, before);
    } else {
      NewStaysBounded(tol, e, ceiling, bound);
    }
  }

  ghost predicate CheckedRun(tol: Tolerance, events: seq<Event>, ceiling: int, bound: real) {
    ClockRuns(events) && forall i :: 0 <= i < |events| ==> Checked(tol, events[i], ceiling, bound)
  }

  /** No request of the run sinks. */
  ghost predicate Afloat(tol: Tolerance, keep: bool, events: seq<Event>) {
    forall n :: 0 <= n < |events| ==> !SinksAt(tol, keep, events, n)
  }

  ghost predicate SinksAt(tol: Tolerance, keep: bool, events: seq<Event>, n: nat)
    requires n < |events|
  {
    Sinks(tol, Lookup(Run(tol, keep, events[..n]), events[n].env.now, keep), events[n])
  }

  lemma AfloatInit(tol: Tolerance, keep: bool, events: seq<Event>)
    requires Afloat(tol, keep, events) && events != []
    ensures Afloat(tol, keep, events[..|events| - 1])
  {
    hide Sinks;
    var init := events[..|events| - 1];
    forall n | 0 <= n < |init|
      ensures !SinksAt(tol, keep, init, n)
    {
      assert init[..n] == events[..n];
      assert !SinksAt(tol, keep, events, n);
    }
  }

  /** After every run that keeps afloat, whatever it changed about the key, the debt clears within the
      ceiling. */
  lemma {:induction false} DebtWithinCeiling(tol: Tolerance, keep: bool, events: seq<Event>, ceiling: int, bound: real)
    requires Sane(tol) && CheckedRun(tol, events, ceiling, bound) && ceiling >= 0 && bound >= 0.0
    requires Afloat(tol, keep, events)
    ensures events != [] ==>
              DebtBounded(tol, Run(tol, keep, events), events[|events| - 1].env.now, ceiling, bound)
  {
    hide LeakyStep, Checked, DebtBounded, Sinks;
    if events == [] {
    } else {
      var n := |events| - 1;
      var rest := events[..n];
      AfloatInit(tol, keep, events);
      DebtWithinCeiling(tol, keep, rest, ceiling, bound);
      var before := if n == 0 then events[0].env.now else events[n - 1].env.now;
      if n == 0 {
        EmptyIsBounded(tol, before, ceiling, bound);
      }
      assert !SinksAt(tol, keep, events, n);
      StepStaysBounded(tol, keep, Run(tol, keep, rest), events[n], ceiling, bound, before);
    }
  }

  lemma EmptyIsBounded(tol: Tolerance, now: int, ceiling: int, bound: real)
    ensures DebtBounded(tol, Empty, now, ceiling, bound)
  {
  }

  // ----- What sinks -----

  lemma NewDebtIff(e: Event)
    requires Validated(e.r)
    ensures var slot := NewStep(e.r, e.env).slot;
            NewStep(e.r, e.env).answer.Answer? ==>
              (slot.Held? && slot.bucket.remaining < 0.0 <==> Sinks(EXACT, Empty, e))
  {
    hide RateOf;
  }

  /** The key owes nothing: it is not in debt, or its stored debt has been repaid at the stored rate. */
  ghost predicate Debtless(b: Bucket, now: int) {
    b.remaining >= 0.0 || (b.burst >= 0 && Usable(StoredRate(b)) && !Owes(EXACT, b, now))
  }

  lemma RepaidSinksIff(b: Bucket, expireAt: int, e: Event)
    requires b.remaining < 0.0 && Debtless(b, e.env.now) && (e.r.gregorian ==> e.env.span.Span?)
    ensures Settled(EXACT, b, e.r, e.env).remaining < 0.0 <==> Sinks(EXACT, Held(b, expireAt), e)
    ensures Settled(EXACT, b, e.r, e.env).remaining < 0.0 ==>
              Settled(EXACT, b, e.r, e.env).burst < 0 || !Usable(SettledRate(EXACT, b, e.r, e.env))
  {
    hide RateOf;
  }

  lemma SettledSinksIff(b: Bucket, expireAt: int, e: Event)
    requires b.remaining >= 0.0 && (e.r.gregorian ==> e.env.span.Span?)
    ensures Settled(EXACT, b, e.r, e.env).remaining < 0.0 <==> Sinks(EXACT, Held(b, expireAt), e)
    ensures Settled(EXACT, b, e.r, e.env).remaining < 0.0 ==>
              Settled(EXACT, b, e.r, e.env).burst < 0 || !Usable(SettledRate(EXACT, b, e.r, e.env))
  {
    hide RateOf;
    assert !Rescale(b, e.r) && !KeepStored(b, e.r);
  }

  lemma CountingSinksIff(s: Bucket, r: Request, env: Env, now: int, rate: Rate, wasInDebt: bool)
    requires Validated(r)
    requires (s.remaining < 0.0 ==> s.burst < 0 || !Usable(rate)) && (s.remaining >= 0.0 ==> s.burst >= 0)
    ensures var d := CountHits(EXACT, s, r, env, now, rate, wasInDebt);
            d.answer.Answer? && (d.bucket.remaining < 0.0 && d.answer.status != Scheduled <==> s.remaining < 0.0)
  {
    hide FullAt, WholeRate, Wait;
  }

  /** On a key that owes nothing, a request leaves debt without booking it if and only if it sinks. */
  lemma UnbookedDebtIff(keep: bool, slot: Slot, e: Event)
    requires Validated(e.r) && (Lookup(slot, e.env.now, keep).Held? ==> Debtless(slot.bucket, e.env.now))
    requires LeakyStep(EXACT, keep, slot, e.r, e.env).answer.Answer?
    ensures var step := LeakyStep(EXACT, keep, slot, e.r, e.env);
            step.slot.Held? && step.slot.bucket.remaining < 0.0 && step.answer.status != Scheduled <==>
            Sinks(EXACT, Lookup(slot, e.env.now, keep), e)
  {
    hide Settled, SettledRate, CountHits, NewExpiry, NewStep, Sinks, Debtless;
    if Lookup(slot, e.env.now, keep).Empty? {
      NewDebtIff(e);
      NewIsNeverBooked(e);
    } else {
      var b := slot.bucket;
      if b.remaining >= 0.0 {
        SettledSinksIff(b, slot.expireAt, e);
      } else {
        RepaidSinksIff(b, slot.expireAt, e);
      }
      SettledHasRoom(b, e);
      CountingSinksIff(Settled(EXACT, b, e.r, e.env), e.r, e.env, Clock(b, e.r, e.env),
                       SettledRate(EXACT, b, e.r, e.env), WasInDebt(b, e.r));
    }
  }

  lemma SettledHasRoom(b: Bucket, e: Event)
    ensures var s := Settled(EXACT, b, e.r, e.env); s.remaining >= 0.0 ==> s.burst >= 0
  {
    hide Rescaled, DebtAt;
  }

  lemma NewIsNeverBooked(e: Event)
    ensures NewStep(e.r, e.env).answer.Answer? ==> NewStep(e.r, e.env).answer.status != Scheduled
  {
    hide RateOf;
  }

  /** The sign of a request's limit, duration and burst tells: without a negative rate or burst nothing
      sinks. */
  lemma NonnegativeNeverSinks(tol: Tolerance, found: Slot, e: Event)
    requires Sane(tol) && RequestBurst(e.r) >= 0
    requires found.Held? ==> found.bucket.burst >= 0 || found.bucket.remaining >= 0.0
    requires found.Held? && found.bucket.remaining < -tol.token ==> Usable(StoredRate(found.bucket))
    requires RequestRate(e.r, e.env).PerToken? ==> RequestRate(e.r, e.env).ms >= 0.0
    ensures !Sinks(tol, found, e)
  {
    hide RateOf;
    if found.Held? {
      var b := found.bucket;
      var now := Clock(b, e.r, e.env);
      assert NewBurst(tol, b, e.r, now) >= 0;
      LeakIsNotNegative(b, now, CreditRate(b, e.r, e.env));
      if b.remaining < -tol.token && !Owes(tol, b, e.env.now) {
        assert Credited(b, e.r, e.env, now) == b.remaining + CreditedLeak(b, now, StoredRate(b));
      }
    }
  }

  lemma LeakIsNotNegative(b: Bucket, now: int, rate: Rate)
    requires rate.PerToken? ==> rate.ms >= 0.0
    ensures CreditedLeak(b, now, rate) >= 0.0
  {
  }

  lemma RateIsNotNegative(duration: int, limit: int)
    requires limit >= 0 && duration >= 0
    ensures var rate := RateOf(duration, limit); rate.PerToken? ==> rate.ms >= 0.0
  {
  }

  /** A request whose limit, duration and burst are not negative. */
  predicate Nonnegative(e: Event) {
    e.r.limit >= 0 && e.r.duration >= 0 && e.r.burst >= 0 && (e.env.span.Span? ==> e.env.span.whole >= 0)
  }

  lemma {:induction false} NonnegativeRunsStayAfloat(tol: Tolerance, keep: bool, events: seq<Event>, ceiling: int,
                                                     bound: real)
    requires Sane(tol) && CheckedRun(tol, events, ceiling, bound) && ceiling >= 0 && bound >= 0.0
    requires forall i :: 0 <= i < |events| ==> Nonnegative(events[i])
    ensures Afloat(tol, keep, events)
  {
    hide LeakyStep, Checked, Sinks;
    if events == [] {
    } else {
      var n := |events| - 1;
      var init := events[..n];
      NonnegativeRunsStayAfloat(tol, keep, init, ceiling, bound);
      DebtWithinCeiling(tol, keep, init, ceiling, bound);
      NonnegativeRate(events[n]);
      NonnegativeNeverSinks(tol, Lookup(Run(tol, keep, init), events[n].env.now, keep), events[n]);
      forall m | 0 <= m < |events|
        ensures !SinksAt(tol, keep, events, m)
      {
        if m < n {
          assert init[..m] == events[..m];
          assert !SinksAt(tol, keep, init, m);
        }
      }
    }
  }

  lemma NonnegativeRate(e: Event)
    requires Nonnegative(e)
    ensures RequestBurst(e.r) >= 0 && (RequestRate(e.r, e.env).PerToken? ==> RequestRate(e.r, e.env).ms >= 0.0)
  {
    hide RateOf;
    RateIsNotNegative(e.r.duration, e.r.limit);
    if e.env.span.Span? {
      RateIsNotNegative(e.env.span.whole, e.r.limit);
    }
  }

  // ----- A run that sinks -----

  function Ask(hits: int, limit: int, now: int): Event {
    Event(Request(hits, limit, 60000, 10, 0, now, false, false, false), Env(now, 300000, NotACode))
  }

  lemma SunkSteps()
    ensures NewStep(Ask(0, 10, 0).r, Ask(0, 10, 0).env).slot == Held(Bucket(10, 60000, 10.0, 0, 10), 60000)
    ensures var e := Ask(1, -1000, 60000);
            ExistingStep(EXACT, Bucket(10, 60000, 10.0, 0, 10), 60000, e.r, e.env).slot ==
            Held(Bucket(-1000, 60000, -990.0, 60000, 10), 120000)
    ensures var e := Ask(0, 10, 60000);
            ExistingStep(EXACT, Bucket(-1000, 60000, -990.0, 60000, 10), 120000, e.r, e.env).slot.Held? &&
            ExistingStep(EXACT, Bucket(-1000, 60000, -990.0, 60000, 10), 120000, e.r, e.env).slot.bucket ==
            Bucket(10, 60000, -990.0, 60000, 10)
  {
    assert RateOf(60000, -1000) == PerToken(-60.0);
    assert RateOf(60000, 10) == PerToken(6000.0);
    hide RateOf;
  }

  /** A full key of ten a minute, one hit a minute later with a limit of minus a thousand, and a query
      with the limit of ten again: a debt of 990 that nobody booked, to clear 99 minutes ahead of a
      ceiling of five. */
  lemma NegativeLimitSinks()
    ensures var events := [Ask(0, 10, 0), Ask(1, -1000, 60000), Ask(0, 10, 60000)];
            var b := Bucket(10, 60000, -990.0, 60000, 10);
            && Run(EXACT, false, events).Held? && Run(EXACT, false, events).bucket == b
            && Usable(StoredRate(b)) && ClearAt(b) == (60000 + 5_940_000) as real
            && CheckedRun(EXACT, events, 300000, 0.0)
            && !DebtBounded(EXACT, Run(EXACT, false, events), 60000, 300000, 0.0)
  {
    hide NewStep, ExistingStep, Run;
    var events := [Ask(0, 10, 0), Ask(1, -1000, 60000), Ask(0, 10, 60000)];
    SunkSteps();
    RunExtends(EXACT, false, events[..0], events[0]);
    assert events[..0] + [events[0]] == events[..1];
    RunExtends(EXACT, false, events[..1], events[1]);
    assert events[..1] + [events[1]] == events[..2];
    RunExtends(EXACT, false, events[..2], events[2]);
    assert events[..2] + [events[2]] == events[..3];
    NothingRun(events[..0]);
    assert events[..3] == events;
    assert RateOf(60000, 10) == PerToken(6000.0);
  }

  lemma NothingRun(events: seq<Event>)
    requires events == []
    ensures Run(EXACT, false, events) == Empty
  {
  }

  // ----- Eviction -----

  /** The tokens of booked debt an evicted bucket takes with it, credited with the leak so far. */
  function EvictedDebt(tol: Tolerance, b: Bucket, now: int): real {
    var leak := if Usable(StoredRate(b)) then CreditedLeak(b, now, StoredRate(b)) else 0.0;
    MaxReal(0.0, -SnapToZero(tol, b.remaining + leak))
  }

  /** An eviction forgets at most the ceiling's worth of tokens at the stored rate. */
  lemma EvictionLosesAtMostCeiling(tol: Tolerance, slot: Slot, now: int, ceiling: int, bound: real)
    requires Sane(tol) && ceiling >= 0 && bound >= 0.0
    requires slot.Held? && DebtBounded(tol, slot, now, ceiling, bound)
    ensures var lost := EvictedDebt(tol, slot.bucket, now);
            var rate := StoredRate(slot.bucket);
            if Usable(rate) then lost * rate.ms <= DebtHorizon(tol, ceiling, bound) else lost <= tol.token
  {
    var b := slot.bucket;
    if Usable(StoredRate(b)) {
      hide RateOf, CreditedLeak, ClearAt;
      var ms := StoredRate(b).ms;
      LeakIsNotNegative(b, now, StoredRate(b));
      assert DebtHorizon(tol, ceiling, bound) >= 0.0 by { assert tol.token * bound >= 0.0; }
      assert 0.0 * ms == 0.0;
      if b.remaining >= -tol.token {
        if tol.token != 0.0 {
          SmallDebtClearsSoon(tol, b, now, ceiling, bound);
        }
      }
      CreditKeepsClearAt(b, now);
      var balance := b.remaining + CreditedLeak(b, now, StoredRate(b));
      assert balance * ms == Max(now, b.updatedAt) as real - ClearAt(b);
      assert -balance * ms == -(balance * ms);
    }
  }
}
