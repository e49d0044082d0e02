/**
 Promises already made survive whatever later requests ask for.
 */
module LeakyReconfig {
  import opened Numbers
  import opened LeakyBucket

  lemma DivThenMul(x: real, ms: real)
    requires ms > 0.0
    ensures x / ms * ms == x
  {
  }

  /** The debt a credit leaves, in time: it clears at the same moment as before. */
  lemma CreditKeepsClearAt(b: Bucket, now: int)
    requires Usable(StoredRate(b))
    ensures var ms := StoredRate(b).ms;
            Max(now, b.updatedAt) as real - (b.remaining + CreditedLeak(b, now, StoredRate(b))) * ms == ClearAt(b)
  {
    var ms := StoredRate(b).ms;
    if now > b.updatedAt {
      var elapsed := (now - b.updatedAt) as real;
      assert (b.remaining + elapsed / ms) * ms == b.remaining * ms + elapsed / ms * ms;
      DivThenMul(elapsed, ms);
    }
  }

  /** A bucket that owes booked slots at the moment of a request. */
  ghost predicate Owes(tol: Tolerance, b: Bucket, now: int) {
    b.remaining < 0.0 && 0 <= b.burst && Usable(StoredRate(b)) && DebtAt(tol, b, now)
  }

  lemma RescaleKeepsTime(balance: real, before: real, after: real)
    requires before > 0.0 && after > 0.0
    ensures balance * (before / after) * after == balance * before
    ensures balance < 0.0 ==> balance * (before / after) < 0.0
  {
    var q := before / after;
    assert q * after == before;
    assert balance * q * after == balance * (q * after);
  }

  /** The credited and rescaled balance of a bucket that owes is negative and clears on time. */
  lemma RescaledDebt(tol: Tolerance, b: Bucket, r: Request, env: Env)
    requires Sane(tol) && Owes(tol, b, env.now) && !r.reset
    requires r.gregorian ==> env.span.Span?
    ensures Rescaled(tol, b, r, env, env.now) < 0.0
    ensures !Rescale(b, r) ==> SnapToZero(tol, Rescaled(tol, b, r, env, env.now)) < 0.0
    ensures var ms := if Rescale(b, r) then RateOf(r.duration, r.limit).ms else StoredRate(b).ms;
            Max(env.now, b.updatedAt) as real - Rescaled(tol, b, r, env, env.now) * ms == ClearAt(b)
  {
    var credited := Credited(b, r, env, env.now);
    assert CreditRate(b, r, env) == StoredRate(b);
    CreditKeepsClearAt(b, env.now);
    if Rescale(b, r) {
      RescaleKeepsTime(credited, StoredRate(b).ms, RateOf(r.duration, r.limit).ms);
    }
  }

  lemma SettledDebt(tol: Tolerance, b: Bucket, r: Request, env: Env)
    requires Sane(tol) && Owes(tol, b, env.now) && !r.reset
    requires r.gregorian ==> env.span.Span?
    ensures Settled(tol, b, r, env).burst >= 0
    ensures Settled(tol, b, r, env).updatedAt == Max(env.now, b.updatedAt)
    ensures var balance := Rescaled(tol, b, r, env, env.now);
            var s := Settled(tol, b, r, env);
            if SnapToZero(tol, balance) < 0.0 then s.remaining == balance
            else Rescale(b, r) && -tol.token < balance && s.remaining >= 0.0
  {
    RescaledDebt(tol, b, r, env);
  }

  lemma RequestRateUsable(r: Request)
    requires RequestUsable(r)
    ensures Usable(RateOf(r.duration, r.limit))
  {
  }

  lemma SettledDebtRate(tol: Tolerance, b: Bucket, r: Request, env: Env)
    requires Sane(tol) && Owes(tol, b, env.now) && !r.reset
    requires r.gregorian ==> env.span.Span?
    requires Settled(tol, b, r, env).remaining < 0.0
    ensures StoredRate(Settled(tol, b, r, env)) == SettledRate(tol, b, r, env)
    ensures SettledRate(tol, b, r, env) == if Rescale(b, r) then RateOf(r.duration, r.limit) else StoredRate(b)
  {
  }

  lemma SmallDebtIsShort(balance: real, token: real, ms: real)
    requires -token < balance && ms > 0.0
    ensures -(token * ms) < balance * ms
  {
    assert (token + balance) * ms > 0.0;
  }

  /** Settling keeps the moment the debt clears. */
  lemma SettlingKeepsClearAt(tol: Tolerance, b: Bucket, r: Request, env: Env)
    requires Sane(tol) && Owes(tol, b, env.now) && !r.reset
    requires r.gregorian ==> env.span.Span?
    requires Settled(tol, b, r, env).remaining < 0.0
    ensures var s := Settled(tol, b, r, env);
            Usable(StoredRate(s)) && ClearAt(s) == ClearAt(b)
  {
    hide Settled, SettledRate, Rescaled, RateOf, SnapToZero;
    SettledDebt(tol, b, r, env);
    RescaledDebt(tol, b, r, env);
    SettledDebtRate(tol, b, r, env);
    if Rescale(b, r) { RequestRateUsable(r); }
  }

  /** Debt that settling drops was negligible. */
  lemma DroppedDebtIsShort(tol: Tolerance, b: Bucket, r: Request, env: Env)
    requires Sane(tol) && Owes(tol, b, env.now) && !r.reset
    requires r.gregorian ==> env.span.Span?
    requires Settled(tol, b, r, env).remaining >= 0.0
    ensures Rescale(b, r)
    ensures ClearAt(b) - Max(env.now, b.updatedAt) as real < tol.token * RateOf(r.duration, r.limit).ms
  {
    hide Settled, Rescaled, RateOf, ClearAt, StoredRate;
    SettledDebt(tol, b, r, env);
    RescaledDebt(tol, b, r, env);
    RequestRateUsable(r);
    SmallDebtIsShort(Rescaled(tol, b, r, env, env.now), tol.token, RateOf(r.duration, r.limit).ms);
  }

  lemma FullAfterClear(b: Bucket)
    requires 0 <= b.burst && Usable(StoredRate(b))
    ensures ClearAt(b) <= FullAt(b, StoredRate(b)) as real
  {
    var ms := StoredRate(b).ms;
    assert b.burst as real * ms >= 0.0;
    assert (b.burst as real - b.remaining) * ms == b.burst as real * ms - b.remaining * ms;
  }

  /** How many tokens later the debt of a settled bucket clears, in milliseconds. */
  function Booked(r: Request, a: Answer, rate: Rate): real {
    if rate.PerToken? && a.Answer? && a.status == Scheduled then r.hits as real * rate.ms else 0.0
  }

  /** Counting hits against a bucket that owes: only a booking changes it, and only by its own hits. */
  lemma CountingKeepsClearAt(tol: Tolerance, s: Bucket, r: Request, env: Env, now: int, wasInDebt: bool)
    requires Sane(tol) && Validated(r)
    requires SnapToZero(tol, s.remaining) < 0.0 && Usable(StoredRate(s))
    ensures var d := CountHits(tol, s, r, env, now, StoredRate(s), wasInDebt);
            && d.bucket == s.(remaining := d.bucket.remaining)
            && SnapToZero(tol, d.bucket.remaining) < 0.0
            && d.answer.Answer?
            && (r.hits > 0 ==> d.answer.status != UnderLimit)
            && (d.answer.status == Scheduled ==> r.hits > 0 && d.extend)
            && ClearAt(d.bucket) == ClearAt(s) + Booked(r, d.answer, StoredRate(s))
  {
    var ms := StoredRate(s).ms;
    assert (s.remaining - r.hits as real) * ms == s.remaining * ms - r.hits as real * ms;
  }

  /** What a request leaves of a bucket that owes: every promised slot, plus its own if it booked one. */
  ghost predicate Kept(tol: Tolerance, b: Bucket, expireAt: int, r: Request, step: Step) {
    && step.slot.Held?
    && var b' := step.slot.bucket;
    && SnapToZero(tol, b'.remaining) < 0.0 && 0 <= b'.burst
    && Usable(StoredRate(b)) && Usable(StoredRate(b'))
    && ClearAt(b') == ClearAt(b) + Booked(r, step.answer, StoredRate(b'))
    && expireAt <= step.slot.expireAt
    && (step.answer.Answer? ==>
          && (r.hits > 0 ==> step.answer.status != UnderLimit)
          && (step.answer.status == Scheduled ==> r.hits > 0))
  }

  /** Less is owed than the tolerance, at the rate the request brings. */
  ghost predicate Negligible(tol: Tolerance, b: Bucket, r: Request, now: int) {
    && Rescale(b, r)
    && 0.0 < ClearAt(b) - Max(now, b.updatedAt) as real < tol.token * RateOf(r.duration, r.limit).ms
  }

  lemma OwesLater(tol: Tolerance, b: Bucket, now: int)
    requires Sane(tol) && Owes(tol, b, now)
    ensures Max(now, b.updatedAt) as real < ClearAt(b)
  {
    CreditKeepsClearAt(b, now);
    var balance := b.remaining + CreditedLeak(b, now, StoredRate(b));
    assert balance * StoredRate(b).ms < 0.0;
  }

  /** Whatever a request asks for, short of a reset: a key that owes keeps owing until the same
      moment, later only by the request's own hits and only when it is booked. Otherwise what was
      owed is less than the tolerance, and the debt counts as repaid. */
  lemma PromisesSurvive(tol: Tolerance, b: Bucket, expireAt: int, r: Request, env: Env)
    requires Sane(tol) && Owes(tol, b, env.now) && !r.reset && Validated(r)
    ensures Kept(tol, b, expireAt, r, ExistingStep(tol, b, expireAt, r, env)) || Negligible(tol, b, r, env.now)
    ensures tol.token == 0.0 ==> Kept(tol, b, expireAt, r, ExistingStep(tol, b, expireAt, r, env))
  {
    hide Settled, SettledRate, SettledBalance, CountHits, ClearAt, FullAt, Booked, RateOf;
    if r.gregorian && env.span.NotACode? {
      SettledIsSnapped(tol, b, env.now);
      NothingBooked(r, StoredRate(b));
      return;
    }
    OwesLater(tol, b, env.now);
    SettledDebt(tol, b, r, env);
    var s := Settled(tol, b, r, env);
    if s.remaining >= 0.0 {
      DroppedDebtIsShort(tol, b, r, env);
    } else {
      SettlingKeepsClearAt(tol, b, r, env);
      SettledDebtRate(tol, b, r, env);
      CountingKeepsClearAt(tol, s, r, env, Clock(b, r, env), WasInDebt(b, r));
    }
  }

  lemma NothingBooked(r: Request, rate: Rate)
    ensures Booked(r, CalendarError, rate) == 0.0
  {
  }

  lemma SettledIsSnapped(tol: Tolerance, b: Bucket, now: int)
    requires Sane(tol) && Owes(tol, b, now)
    ensures SnapToZero(tol, b.remaining) < 0.0
  {
    if now > b.updatedAt {
      assert (now - b.updatedAt) as real / StoredRate(b).ms >= 0.0;
    }
  }

  // ----- Bookings over a run -----

  /** The whole millisecond a caller booked until clear is told to act at. */
  function GrantTime(tol: Tolerance, now: int, clear: real): int {
    Max(now + 1, Ceil(clear - tol.wait))
  }

  lemma CeilShift(x: real, n: int)
    ensures Ceil(x - n as real) == Ceil(x) - n
  {
  }

  /** A validated request counts its hits at the rate it leaves stored. */
  lemma WaitsAtStoredRate(tol: Tolerance, b: Bucket, r: Request, env: Env)
    requires !r.gregorian
    ensures StoredRate(Settled(tol, b, r, env)) == SettledRate(tol, b, r, env)
    ensures Settled(tol, b, r, env).updatedAt >= Clock(b, r, env)
  {
    hide RateOf, SettledBalance;
  }

  lemma BookingDecision(tol: Tolerance, s: Bucket, r: Request, env: Env, now: int, wasInDebt: bool)
    requires Sane(tol) && Validated(r) && env.now <= s.updatedAt
    requires CountHits(tol, s, r, env, now, StoredRate(s), wasInDebt).answer.status == Scheduled
    ensures var d := CountHits(tol, s, r, env, now, StoredRate(s), wasInDebt);
            && d.extend
            && d.bucket == s.(remaining := s.remaining - r.hits as real)
            && SnapToZero(tol, d.bucket.remaining) < 0.0 && 0 < r.hits <= s.burst && Usable(StoredRate(s))
            && env.now as real < ClearAt(d.bucket)
            && env.now + d.answer.retryAfter == GrantTime(tol, env.now, ClearAt(d.bucket))
            && 1 <= d.answer.retryAfter <= Min(r.maxWait, env.ceiling)
  {
    hide RateOf, FullAt, WholeRate, Wait, GrantTime, ClearAt;
    WaitIsGrantTime(tol, s, r.hits, env.now);
  }

  /** The wait that is told ends at the millisecond the booked debt clears. */
  lemma WaitIsGrantTime(tol: Tolerance, s: Bucket, hits: int, now: int)
    requires now <= s.updatedAt && Usable(StoredRate(s))
    ensures var b' := s.(remaining := s.remaining - hits as real);
            var wait := Wait(tol, s, hits, now, StoredRate(s).ms);
            && 1 <= wait && now + wait == GrantTime(tol, now, ClearAt(b'))
            && (b'.remaining < 0.0 ==> now as real < ClearAt(b'))
  {
    hide RateOf;
    var ms := StoredRate(s).ms;
    var b' := s.(remaining := s.remaining - hits as real);
    NegatedProduct(s.remaining, hits as real, ms);
    assert ClearAt(b') == s.updatedAt as real - (s.remaining - hits as real) * ms;
    var x := (Max(s.updatedAt, now) - now) as real + (hits as real - s.remaining) * ms - tol.wait;
    assert Wait(tol, s, hits, now, ms) == Max(1, Ceil(x));
    ShiftedWait(x, ClearAt(b') - tol.wait, now);
  }

  lemma NegatedProduct(a: real, h: real, ms: real)
    ensures (a - h) * ms == -((h - a) * ms)
    ensures a - h < 0.0 && ms > 0.0 ==> (a - h) * ms < 0.0
  {
  }

  lemma ShiftedWait(x: real, y: real, n: int)
    requires x == y - n as real
    ensures n + Max(1, Ceil(x)) == Max(n + 1, Ceil(y))
  {
    CeilShift(y, n);
  }

  /** A booking, on any bucket: the exact moment is the one the debt clears, the answer rounds it. */
  lemma BookingOutcome(tol: Tolerance, keep: bool, slot: Slot, r: Request, env: Env)
    requires Sane(tol) && Validated(r)
    requires var a := LeakyStep(tol, keep, slot, r, env).answer; a.Answer? && a.status == Scheduled
    ensures var step := LeakyStep(tol, keep, slot, r, env);
            && step.slot.Held?
            && var b' := step.slot.bucket;
            && SnapToZero(tol, b'.remaining) < 0.0 && 0 < r.hits <= b'.burst && Usable(StoredRate(b'))
            && env.now as real < ClearAt(b')
            && env.now + step.answer.retryAfter == GrantTime(tol, env.now, ClearAt(b'))
            && 1 <= step.answer.retryAfter <= Min(r.maxWait, env.ceiling)
            && ClearAt(b') <= step.slot.expireAt as real
  {
    hide Settled, SettledRate, CountHits, GrantTime, FullAt;
    var b := Lookup(slot, env.now, keep).bucket;
    var s := Settled(tol, b, r, env);
    assert r.maxWait > 0 by {
      assert CountHits(tol, s, r, env, Clock(b, r, env), SettledRate(tol, b, r, env),
                       WasInDebt(b, r)).answer.status == Scheduled;
      OnlyWaitersAreBooked(tol, s, r, env, Clock(b, r, env), SettledRate(tol, b, r, env), WasInDebt(b, r));
    }
    WaitsAtStoredRate(tol, b, r, env);
    BookingDecision(tol, s, r, env, Clock(b, r, env), WasInDebt(b, r));
    FullAfterClear(Decided(tol, b, r, env).bucket);
  }

  lemma OnlyWaitersAreBooked(tol: Tolerance, s: Bucket, r: Request, env: Env, now: int, rate: Rate, wasInDebt: bool)
    ensures CountHits(tol, s, r, env, now, rate, wasInDebt).answer.status == Scheduled ==> r.maxWait > 0
  {
  }

  /** Rates stay below a bound, so that a token tolerance is a bounded stretch of time. */
  ghost predicate RateWithin(duration: int, limit: int, bound: real) {
    var rate := RateOf(duration, limit);
    Usable(rate) ==> rate.ms <= bound
  }

  /** What the order of bookings needs of a request: it was checked, it resets nothing, its rates
      are bounded, and unless arithmetic is exact its client did not stamp it ahead of the owner. */
  ghost predicate Orderly(tol: Tolerance, e: Event, bound: real) {
    && Validated(e.r) && !e.r.reset
    && RateWithin(e.r.duration, e.r.limit, bound)
    && RateWithin(RequestDuration(e.r, e.env), e.r.limit, bound)
    && (tol.token == 0.0 || e.r.createdAt <= e.env.now)
  }

  ghost predicate Bounded(tol: Tolerance, slot: Slot, now: int, bound: real) {
    slot.Held? ==>
      && RateWithin(slot.bucket.duration, slot.bucket.limit, bound)
      && (tol.token == 0.0 || slot.bucket.updatedAt <= now)
  }

  lemma StaysBounded(tol: Tolerance, keep: bool, slot: Slot, e: Event, bound: real, before: int)
    requires Orderly(tol, e, bound) && Bounded(tol, slot, before, bound) && before <= e.env.now
    ensures Bounded(tol, LeakyStep(tol, keep, slot, e.r, e.env).slot, e.env.now, bound)
  {
    hide RateWithin, SettledBalance, SettledRate, NewBurst;
    if Lookup(slot, e.env.now, keep).Held? && !(e.r.gregorian && e.env.span.NotACode?) {
      var b := slot.bucket;
      hide CountHits;
      CountingKeepsConfig(tol, Settled(tol, b, e.r, e.env), e.r, e.env, Clock(b, e.r, e.env),
                          SettledRate(tol, b, e.r, e.env), WasInDebt(b, e.r));
    }
  }

  lemma CountingKeepsConfig(tol: Tolerance, s: Bucket, r: Request, env: Env, now: int, rate: Rate, wasInDebt: bool)
    ensures var b' := CountHits(tol, s, r, env, now, rate, wasInDebt).bucket;
            b' == s.(remaining := b'.remaining)
  {
  }

  /** A slot booked until clear has not been given away. */
  ghost predicate Pending(tol: Tolerance, slot: Slot, clear: real) {
    && slot.Held?
    && SnapToZero(tol, slot.bucket.remaining) < 0.0 && 0 <= slot.bucket.burst
    && Usable(StoredRate(slot.bucket))
    && clear <= ClearAt(slot.bucket)
    && clear <= slot.expireAt as real
  }

  lemma SignOfProduct(x: real, ms: real)
    requires ms > 0.0 && x * ms < 0.0
    ensures x < 0.0
  {
  }

  lemma ProductGrows(token: real, ms: real, bound: real)
    requires 0.0 <= token && ms <= bound
    ensures token * ms <= token * bound
  {
  }

  lemma DebtOverSlack(balance: real, token: real, ms: real, bound: real, now: real, clear: real)
    requires 0.0 < ms <= bound && 0.0 <= token
    requires balance * ms == now - clear && now + token * bound < clear
    ensures balance + token < 0.0
  {
    ProductGrows(token, ms, bound);
    assert (balance + token) * ms == balance * ms + token * ms;
    SignOfProduct(balance + token, ms);
  }

  lemma PendingOwes(tol: Tolerance, slot: Slot, clear: real, now: int, bound: real)
    requires Sane(tol) && Pending(tol, slot, clear) && Bounded(tol, slot, now, bound)
    requires now as real + tol.token * bound < clear
    ensures Owes(tol, slot.bucket, now)
  {
    hide RateOf;
    var b := slot.bucket;
    var ms := StoredRate(b).ms;
    if now > b.updatedAt {
      hide CreditedLeak, ClearAt;
      var balance := b.remaining + CreditedLeak(b, now, StoredRate(b));
      CreditKeepsClearAt(b, now);
      assert balance * ms == now as real - ClearAt(b);
      DebtOverSlack(balance, tol.token, ms, bound, now as real, ClearAt(b));
    }
  }

  lemma NegligibleIsSoon(tol: Tolerance, b: Bucket, r: Request, now: int, bound: real)
    requires Sane(tol) && RateWithin(r.duration, r.limit, bound) && Usable(StoredRate(b))
    ensures Negligible(tol, b, r, now) ==> ClearAt(b) <= Max(now, b.updatedAt) as real + tol.token * bound
  {
    hide ClearAt;
    if Negligible(tol, b, r, now) {
      assert tol.token * RateOf(r.duration, r.limit).ms <= tol.token * bound;
    }
  }

  /** While a slot is pending, a request leaves it pending, is not admitted at once, and books
      only behind it. */
  lemma PendingSurvives(tol: Tolerance, keep: bool, slot: Slot, e: Event, clear: real, bound: real)
    requires Sane(tol) && Pending(tol, slot, clear) && Bounded(tol, slot, e.env.now, bound) && Orderly(tol, e, bound)
    requires e.env.now as real + tol.token * bound < clear
    ensures LeakyStep(tol, keep, slot, e.r, e.env) == ExistingStep(tol, slot.bucket, slot.expireAt, e.r, e.env)
    ensures Kept(tol, slot.bucket, slot.expireAt, e.r, LeakyStep(tol, keep, slot, e.r, e.env))
    ensures Pending(tol, LeakyStep(tol, keep, slot, e.r, e.env).slot, clear)
  {
    hide ExistingStep, RateOf, SnapToZero;
    var b := slot.bucket;
    PendingOwes(tol, slot, clear, e.env.now, bound);
    PromisesSurvive(tol, b, slot.expireAt, e.r, e.env);
    NegligibleIsSoon(tol, b, e.r, e.env.now, bound);
    var step := LeakyStep(tol, keep, slot, e.r, e.env);
    assert Booked(e.r, step.answer, StoredRate(step.slot.bucket)) >= 0.0;
  }

  lemma BoundedLater(tol: Tolerance, slot: Slot, before: int, now: int, bound: real)
    requires Bounded(tol, slot, before, bound) && before <= now
    ensures Bounded(tol, slot, now, bound)
  {
  }

  lemma BehindPending(tol: Tolerance, keep: bool, slot: Slot, e: Event, clear: real, bound: real)
    requires Sane(tol) && Pending(tol, slot, clear) && Bounded(tol, slot, e.env.now, bound) && Orderly(tol, e, bound)
    requires e.env.now as real + tol.token * bound < clear
    ensures var step := LeakyStep(tol, keep, slot, e.r, e.env);
            step.answer.Answer? ==>
              && (e.r.hits > 0 ==> step.answer.status != UnderLimit)
              && (step.answer.status == Scheduled ==>
                    && step.slot.Held? && Usable(StoredRate(step.slot.bucket))
                    && clear + e.r.hits as real * StoredRate(step.slot.bucket).ms <= ClearAt(step.slot.bucket))
  {
    hide LeakyStep, RateOf, SnapToZero, ClearAt;
    PendingSurvives(tol, keep, slot, e, clear, bound);
  }

  ghost predicate OrderlyRun(tol: Tolerance, events: seq<Event>, bound: real) {
    ClockRuns(events) && forall i :: 0 <= i < |events| ==> Orderly(tol, events[i], bound)
  }

  predicate BookedAt(tol: Tolerance, keep: bool, events: seq<Event>, i: nat)
    requires i < |events|
  {
    var a := AnswerAt(tol, keep, events, i);
    a.Answer? && a.status == Scheduled
  }

  /** The exact moment the i-th request, a booking, is granted. */
  function SlotTime(tol: Tolerance, keep: bool, events: seq<Event>, i: nat): real
    requires i < |events|
  {
    var slot := Run(tol, keep, events[..i + 1]);
    if slot.Held? && Usable(StoredRate(slot.bucket)) then ClearAt(slot.bucket) else 0.0
  }

  predicate AdmittedAt(tol: Tolerance, keep: bool, events: seq<Event>, i: nat)
    requires i < |events|
  {
    var a := AnswerAt(tol, keep, events, i);
    events[i].r.hits > 0 && a.Answer? && a.status == UnderLimit
  }

  /** The time the i-th request's own hits take to leak in, at the rate it leaves stored. */
  function OwnTime(tol: Tolerance, keep: bool, events: seq<Event>, i: nat): real
    requires i < |events|
  {
    var slot := Run(tol, keep, events[..i + 1]);
    if slot.Held? && Usable(StoredRate(slot.bucket))
    then events[i].r.hits as real * StoredRate(slot.bucket).ms
    else 0.0
  }

  /** The whole millisecond the i-th request, a booking, is told to act at. */
  function ActTime(tol: Tolerance, keep: bool, events: seq<Event>, i: nat): int
    requires i < |events| && AnswerAt(tol, keep, events, i).Answer?
  {
    events[i].env.now + AnswerAt(tol, keep, events, i).retryAfter
  }

  lemma {:induction false} RunBounded(tol: Tolerance, keep: bool, events: seq<Event>, bound: real, k: nat)
    requires Sane(tol) && OrderlyRun(tol, events, bound) && k <= |events|
    ensures Bounded(tol, Run(tol, keep, events[..k]), if k == 0 then 0 else events[k - 1].env.now, bound)
  {
    hide LeakyStep, Orderly;
    if k == 0 {
    } else {
      RunBounded(tol, keep, events, bound, k - 1);
      RunExtends(tol, keep, events[..k - 1], events[k - 1]);
      assert events[..k - 1] + [events[k - 1]] == events[..k];
      var before := if k == 1 then events[0].env.now else events[k - 2].env.now;
      StaysBounded(tol, keep, Run(tol, keep, events[..k - 1]), events[k - 1], bound, before);
    }
  }

  lemma {:induction false} StillPending(tol: Tolerance, keep: bool, events: seq<Event>, bound: real, i: nat, k: nat)
    requires Sane(tol) && OrderlyRun(tol, events, bound) && 0.0 <= bound
    requires i < k <= |events| && BookedAt(tol, keep, events, i)
    requires k == i + 1 || events[k - 1].env.now as real + tol.token * bound < SlotTime(tol, keep, events, i)
    ensures Pending(tol, Run(tol, keep, events[..k]), SlotTime(tol, keep, events, i))
    decreases k
  {
    hide LeakyStep, Orderly;
    RunExtends(tol, keep, events[..k - 1], events[k - 1]);
    assert events[..k - 1] + [events[k - 1]] == events[..k];
    var e := events[k - 1];
    var slot := Run(tol, keep, events[..k - 1]);
    if k == i + 1 {
      assert Orderly(tol, e, bound);
      OrderlyIsValidated(tol, e, bound);
      BookingOutcome(tol, keep, slot, e.r, e.env);
    } else {
      StillPending(tol, keep, events, bound, i, k - 1);
      RunBounded(tol, keep, events, bound, k - 1);
      PendingSurvives(tol, keep, slot, e, SlotTime(tol, keep, events, i), bound);
    }
  }

  lemma OrderlyIsValidated(tol: Tolerance, e: Event, bound: real)
    requires Orderly(tol, e, bound)
    ensures Validated(e.r)
  {
  }

  /** Slots are given out in the order requests came. Until a booked slot's moment, no later request
      is admitted at once, and a later booking clears its own hits after it. */
  lemma NobodyJumpsAhead(tol: Tolerance, keep: bool, events: seq<Event>, bound: real, i: nat, j: nat)
    requires Sane(tol) && OrderlyRun(tol, events, bound) && 0.0 <= bound
    requires i < j < |events| && BookedAt(tol, keep, events, i)
    ensures var clear := SlotTime(tol, keep, events, i);
            events[j].env.now as real + tol.token * bound < clear ==>
              && !AdmittedAt(tol, keep, events, j)
              && (BookedAt(tol, keep, events, j) ==>
                    clear + OwnTime(tol, keep, events, j) <= SlotTime(tol, keep, events, j))
  {
    hide LeakyStep, Orderly, SnapToZero, RateOf, GrantTime;
    hide Pending, Kept, Bounded;
    var e := events[j];
    var slot := Run(tol, keep, events[..j]);
    RunExtends(tol, keep, events[..j], events[j]);
    assert events[..j] + [events[j]] == events[..j + 1];
    var clear := SlotTime(tol, keep, events, i);
    if e.env.now as real + tol.token * bound < clear {
      StillPending(tol, keep, events, bound, i, j);
      RunBounded(tol, keep, events, bound, j);
      BoundedLater(tol, slot, if j == 0 then 0 else events[j - 1].env.now, e.env.now, bound);
      BehindPending(tol, keep, slot, e, clear, bound);
    }
  }

  lemma BookedTimes(tol: Tolerance, keep: bool, events: seq<Event>, bound: real, j: nat)
    requires Sane(tol) && OrderlyRun(tol, events, bound)
    requires j < |events| && BookedAt(tol, keep, events, j)
    ensures events[j].env.now as real < SlotTime(tol, keep, events, j) && 0.0 < OwnTime(tol, keep, events, j)
  {
    hide LeakyStep, Orderly, SnapToZero, GrantTime, RateOf, ClearAt;
    var e := events[j];
    RunExtends(tol, keep, events[..j], events[j]);
    assert events[..j] + [events[j]] == events[..j + 1];
    OrderlyIsValidated(tol, e, bound);
    BookingOutcome(tol, keep, Run(tol, keep, events[..j]), e.r, e.env);
    PositiveProduct(e.r.hits as real, StoredRate(Run(tol, keep, events[..j + 1]).bucket).ms);
  }

  lemma PositiveProduct(x: real, ms: real)
    requires 0.0 < x && 0.0 < ms
    ensures 0.0 < x * ms
  {
  }

  /** Slots come in the order they were booked, up to the tolerance. */
  lemma SlotsInOrder(tol: Tolerance, keep: bool, events: seq<Event>, bound: real, i: nat, j: nat)
    requires Sane(tol) && OrderlyRun(tol, events, bound) && 0.0 <= bound
    requires i < j < |events| && BookedAt(tol, keep, events, i) && BookedAt(tol, keep, events, j)
    ensures SlotTime(tol, keep, events, i) < SlotTime(tol, keep, events, j) + tol.token * bound
  {
    hide OrderlyRun, BookedAt, AdmittedAt, SlotTime, OwnTime;
    NobodyJumpsAhead(tol, keep, events, bound, i, j);
    BookedTimes(tol, keep, events, bound, j);
    ProductGrows(tol.token, 0.0, bound);
  }

  /** With exact arithmetic, callers are told to act in the order they were booked. */
  lemma BookedInOrder(tol: Tolerance, keep: bool, events: seq<Event>, bound: real, i: nat, j: nat)
    requires Sane(tol) && tol.token == 0.0 && OrderlyRun(tol, events, bound) && 0.0 <= bound
    requires i < j < |events| && BookedAt(tol, keep, events, i) && BookedAt(tol, keep, events, j)
    ensures ActTime(tol, keep, events, i) <= ActTime(tol, keep, events, j)
  {
    hide LeakyStep, Orderly, SnapToZero, RateOf;
    SlotsInOrder(tol, keep, events, bound, i, j);
    OrderlyIsValidated(tol, events[i], bound);
    OrderlyIsValidated(tol, events[j], bound);
    RunExtends(tol, keep, events[..i], events[i]);
    assert events[..i] + [events[i]] == events[..i + 1];
    RunExtends(tol, keep, events[..j], events[j]);
    assert events[..j] + [events[j]] == events[..j + 1];
    BookingOutcome(tol, keep, Run(tol, keep, events[..i]), events[i].r, events[i].env);
    BookingOutcome(tol, keep, Run(tol, keep, events[..j]), events[j].r, events[j].env);
  }
}
