/**
 What one request does to a leaky bucket, field by field, in plain arithmetic: what it finds available, what
 it leaves, when the key expires and every field of its answer. This covers what a fixed configuration on one
 clock does not: resets, refunds, changes of limit, duration and burst, calendar rates and client stamps.
 */
module LeakyEffects {
  import opened Numbers
  import opened LeakyBucket

  /** The most the bucket holds: a burst left out is the limit. */
  function Capacity(r: Request): int {
    if r.burst != 0 then r.burst else r.limit
  }

  /** In how many milliseconds a limit's worth leaks in, and for how many the key is kept. */
  function Period(r: Request, env: Env): int {
    if r.gregorian && env.span.Span? then env.span.whole else r.duration
  }

  function Lifetime(r: Request, env: Env): int {
    if r.gregorian && env.span.Span? then env.span.left else r.duration
  }

  /** A checked request with a rate and a burst that is not negative. */
  ghost predicate Sensible(r: Request, env: Env) {
    && Validated(r) && r.limit > 0 && Period(r, env) > 0 && r.duration >= 0 && Capacity(r) >= 0
    && (r.gregorian ==> env.span.Span?)
  }

  /** The tokens that leak in from one moment to another, at a limit in a period. */
  function LeakOver(from: int, to: int, limit: int, period: int): real
    requires period > 0
  {
    if to > from then (to - from) as real * limit as real / period as real else 0.0
  }

  /** What a request finds on a key that is not in debt: what was there and what has leaked in since, shifted
      by a change of the burst, at most the burst and at least nothing; or, after a reset, all of it. */
  function Available(b: Bucket, r: Request, env: Env, now: int): real
    requires Period(r, env) > 0
  {
    var burst := Capacity(r) as real;
    if r.reset then burst
    else
      var shifted := b.remaining + LeakOver(b.updatedAt, now, r.limit, Period(r, env)) + burst - b.burst as real;
      MinReal(burst, MaxReal(0.0, shifted))
  }

  /** When an answer says the bucket is back at its limit: in whole milliseconds per missing token. */
  function BackAt(r: Request, env: Env, now: int, tokens: int): int
    requires r.limit > 0
  {
    now + (r.limit - tokens) * (Period(r, env) / r.limit)
  }

  // ----- Small steps -----

  lemma TruncIsDivision(period: int, limit: int)
    requires limit > 0 && period >= 0
    ensures WholeRate(RateOf(period, limit)) == period / limit
  {
    var x, q := period as real / limit as real, period / limit;
    assert period == limit * q + period % limit;
    DivideReal(period, limit, q, period % limit);
    assert x.Floor == q;
  }

  lemma DivideReal(period: int, limit: int, q: int, rest: int)
    requires limit > 0 && period == limit * q + rest && 0 <= rest < limit
    ensures q as real <= period as real / limit as real < q as real + 1.0
  {
    var l := limit as real;
    assert period as real == l * q as real + rest as real;
    assert period as real / l == q as real + rest as real / l by {
      assert (l * q as real + rest as real) / l == l * q as real / l + rest as real / l;
      assert l * q as real / l == q as real;
    }
    assert 0.0 <= rest as real / l < 1.0;
  }

  lemma LeakIsCredit(b: Bucket, now: int, limit: int, period: int)
    requires limit > 0 && period > 0
    ensures CreditedLeak(b, now, RateOf(period, limit)) == LeakOver(b.updatedAt, now, limit, period)
    ensures LeakOver(b.updatedAt, now, limit, period) >= 0.0
  {
    var p, l := period as real, limit as real;
    if now > b.updatedAt {
      var d := (now - b.updatedAt) as real;
      DivideByQuotient(d, p, l);
    }
  }

  lemma DivideByQuotient(d: real, p: real, l: real)
    requires p > 0.0 && l > 0.0 && d >= 0.0
    ensures p / l > 0.0 && d / (p / l) == d * l / p && d * l / p >= 0.0
  {
    var q := p / l;
    assert q * l == p;
    assert d / q * q == d;
    assert d * l == d / q * q * l;
    assert d / q * q * l == d / q * (q * l);
    assert d / q * p / p == d / q;
    assert d * l >= 0.0;
  }

  lemma WholeOf(x: real)
    requires x >= 0.0
    ensures WholeTokens(EXACT, x) == x.Floor == SpendableTokens(EXACT, x) && x.Floor >= 0
  {
    assert x + 0.0 == x;
  }

  /** Settling a key that is not in debt leaves what the request finds available. */
  lemma SettlesToAvailable(b: Bucket, r: Request, env: Env, now: int)
    requires b.remaining >= 0.0 && Sensible(r, env) && now == if r.maxWait > 0 then env.now else r.createdAt
    ensures Clock(b, r, env) == now
    ensures Settled(EXACT, b, r, env) ==
            Bucket(r.limit, r.duration, Available(b, r, env, now), Max(now, b.updatedAt), Capacity(r))
    ensures SettledRate(EXACT, b, r, env) == RateOf(Period(r, env), r.limit)
    ensures Available(b, r, env, now) >= 0.0
  {
    hide RateOf, CreditedLeak, LeakOver;
    LeakIsCredit(b, now, r.limit, Period(r, env));
    assert !KeepStored(b, r) && !Rescale(b, r);
  }

  // ----- A key that is not in debt -----

  /** Counting a plain request's hits on a settled bucket that is not in debt. */
  lemma CountPlain(s: Bucket, r: Request, env: Env, now: int, rate: Rate, wasInDebt: bool, each: int)
    requires 0.0 <= s.remaining <= s.burst as real && r.maxWait == 0 && WholeRate(rate) == each
    ensures var fits := r.hits <= s.remaining.Floor;
            var left := if fits then MinReal(s.burst as real, s.remaining - r.hits as real)
                        else if r.drain then 0.0 else s.remaining;
            CountHits(EXACT, s, r, env, now, rate, wasInDebt) ==
            Decision(s.(remaining := left),
                     Answer(if fits then UnderLimit else OverLimit, s.limit,
                            if fits then left.Floor else if r.drain then 0 else s.remaining.Floor,
                            now + (s.limit - (if fits then left.Floor else s.remaining.Floor)) * each, 0),
                     fits && r.hits != 0 && wasInDebt)
  {
    hide WholeRate, FullAt, WholeTokens, SpendableTokens, SnapToZero;
    WholeOf(s.remaining);
    if r.hits <= s.remaining.Floor {
      var left := MinReal(s.burst as real, s.remaining - r.hits as real);
      SpentIsPositive(s, r.hits);
      WholeOf(left);
      ExactSnap(left);
    }
  }

  lemma ExactSnap(x: real)
    ensures SnapToZero(EXACT, x) == x
  {
  }

  lemma SpentIsPositive(s: Bucket, hits: int)
    requires 0.0 <= s.remaining <= s.burst as real && hits <= s.remaining.Floor
    ensures MinReal(s.burst as real, s.remaining - hits as real) >= 0.0
  {
  }

  /** A plain request takes its hits if they fit the whole tokens available, or gives tokens back up to the
      burst; one that does not fit leaves the key alone, or empties it. */
  lemma PlainRequest(b: Bucket, expireAt: int, r: Request, env: Env)
    requires b.remaining >= 0.0 && Sensible(r, env) && r.maxWait == 0
    ensures var now, burst := r.createdAt, Capacity(r);
            var have := Available(b, r, env, now);
            var fits := r.hits <= have.Floor;
            var left := if fits then MinReal(burst as real, have - r.hits as real) else if r.drain then 0.0 else have;
            ExistingStep(EXACT, b, expireAt, r, env) ==
            Step(Held(Bucket(r.limit, r.duration, left, Max(now, b.updatedAt), burst),
                      if r.hits == 0 then expireAt else now + Lifetime(r, env)),
                 Answer(if fits then UnderLimit else OverLimit, r.limit,
                        if fits then left.Floor else if r.drain then 0 else have.Floor,
                        BackAt(r, env, now, if fits then left.Floor else have.Floor), 0))
  {
    hide RateOf, Settled, SettledRate, Available, Clock, WholeRate, CountHits, ExtendExpiry, NewBurst;
    var now := r.createdAt;
    var rate, each := RateOf(Period(r, env), r.limit), Period(r, env) / r.limit;
    SettlesToAvailable(b, r, env, now);
    AvailableAtMost(b, r, env, now);
    TruncIsDivision(Period(r, env), r.limit);
    CountPlain(Settled(EXACT, b, r, env), r, env, now, rate, false, each);
  }

  lemma AvailableAtMost(b: Bucket, r: Request, env: Env, now: int)
    requires Period(r, env) > 0 && Capacity(r) >= 0
    ensures 0.0 <= Available(b, r, env, now) <= Capacity(r) as real
  {
    hide LeakOver;
  }

  /** The balance at a moment, without a bound. */
  function LevelAt(b: Bucket, limit: int, period: int, now: int): real
    requires period > 0
  {
    b.remaining + LeakOver(b.updatedAt, now, limit, period)
  }

  /** The wait is the least number of milliseconds, at least one, after which the leak covers the hits. */
  ghost predicate LeastWaitFor(b: Bucket, limit: int, period: int, now: int, hits: int, wait: int)
    requires period > 0
  {
    && 1 <= wait && LevelAt(b, limit, period, now + wait) >= hits as real
    && forall u :: now < u < now + wait ==> LevelAt(b, limit, period, u) < hits as real
  }

  /** From that millisecond on, and not before, the bucket is back at its burst. */
  ghost predicate FullFrom(b: Bucket, limit: int, period: int, at: int)
    requires period > 0
  {
    forall u :: b.updatedAt <= u ==> (LevelAt(b, limit, period, u) >= b.burst as real <==> at <= u)
  }

  /** The leak over a time covers an amount exactly when the time is as long as the amount takes. */
  lemma LeakCovers(d: int, amount: real, limit: int, period: int)
    requires limit > 0 && period > 0 && amount >= 0.0 && d >= 0
    ensures LeakOver(0, d, limit, period) >= amount <==> d as real >= amount * (period as real / limit as real)
  {
    var p, l := period as real, limit as real;
    DivideByQuotient(d as real, p, l);
    CoversByQuotient(d as real, amount, p / l);
  }

  lemma CoversByQuotient(d: real, amount: real, q: real)
    requires q > 0.0
    ensures d / q >= amount <==> d >= amount * q
  {
    assert d / q * q == d;
    if d / q >= amount {
      assert (d / q - amount) * q >= 0.0;
    } else {
      assert (amount - d / q) * q > 0.0;
    }
  }

  lemma LeakShifts(from: int, to: int, limit: int, period: int)
    requires period > 0 && from <= to
    ensures LeakOver(from, to, limit, period) == LeakOver(0, to - from, limit, period)
  {
  }

  lemma FullAtIsFirst(b: Bucket, limit: int, period: int)
    requires limit > 0 && period > 0 && b.remaining <= b.burst as real
    ensures FullFrom(b, limit, period, FullAt(b, RateOf(period, limit)))
  {
    hide LeakOver;
    var at := FullAt(b, RateOf(period, limit));
    var amount := b.burst as real - b.remaining;
    var x := amount * (period as real / limit as real);
    forall u | b.updatedAt <= u
      ensures LevelAt(b, limit, period, u) >= b.burst as real <==> at <= u
    {
      LeakShifts(b.updatedAt, u, limit, period);
      LeakCovers(u - b.updatedAt, amount, limit, period);
      CeilIff(b.updatedAt as real + x, u);
    }
  }

  lemma CeilIff(x: real, u: int)
    ensures Ceil(x) <= u <==> x <= u as real
  {
  }

  lemma WaitIsLeast(b: Bucket, limit: int, period: int, now: int, hits: int)
    requires limit > 0 && period > 0 && b.remaining < hits as real && now <= b.updatedAt
    ensures LeastWaitFor(b, limit, period, now, hits, Wait(EXACT, b, hits, now, period as real / limit as real))
  {
    hide LeakOver;
    var ms := period as real / limit as real;
    var amount := hits as real - b.remaining;
    var wait := Wait(EXACT, b, hits, now, ms);
    var x := (b.updatedAt - now) as real + amount * ms;
    assert wait == Max(1, Ceil(x)) by {
      assert (Max(b.updatedAt, now) - now) as real + (hits as real - b.remaining) * ms - 0.0 == x;
    }
    assert amount * ms > 0.0 by {
      DivideByQuotient(0.0, period as real, limit as real);
    }
    forall u | now < u <= now + wait
      ensures LevelAt(b, limit, period, u) >= hits as real <==> Ceil(x) <= u - now
    {
      CeilIff(x, u - now);
      if u < b.updatedAt {
        NoLeakYet(b.updatedAt, u, limit, period);
      } else {
        LeakShifts(b.updatedAt, u, limit, period);
        LeakCovers(u - b.updatedAt, amount, limit, period);
      }
    }
    assert LevelAt(b, limit, period, now + wait) >= hits as real;
  }

  lemma NoLeakYet(from: int, to: int, limit: int, period: int)
    requires period > 0 && to <= from
    ensures LeakOver(from, to, limit, period) == 0.0
  {
  }

  /** Counting the hits of a request that may wait, on a settled bucket that is not in debt. */
  lemma CountWaiting(s: Bucket, r: Request, env: Env, period: int, wasInDebt: bool)
    requires 0.0 <= s.remaining <= s.burst as real && s.limit > 0 && period > 0 && env.now <= s.updatedAt
    requires r.maxWait > 0 && r.hits >= 0
    ensures var rate, each, now := RateOf(period, s.limit), period / s.limit, env.now;
            var d, whole := CountHits(EXACT, s, r, env, now, rate, wasInDebt), s.remaining.Floor;
            var shown := Answer(UnderLimit, s.limit, whole, now + (s.limit - whole) * each, 0);
            var taken := s.(remaining := s.remaining - r.hits as real);
            if r.hits > s.burst then d == Decision(s, shown.(status := NeverFits), false)
            else if r.hits <= whole then
              var left := taken.remaining.Floor;
              d == Decision(taken, shown.(remaining := left, resetTime := now + (s.limit - left) * each),
                            r.hits != 0 && wasInDebt)
            else
              && d.answer.Answer?
              && var wait := d.answer.retryAfter;
              && LeastWaitFor(s, s.limit, period, now, r.hits, wait)
              && d == if wait > r.maxWait || wait > env.ceiling
                      then Decision(s, shown.(status := OverLimit, retryAfter := wait), false)
                      else Decision(taken, Answer(Scheduled, s.limit, 0, FullAt(taken, rate), wait), true)
  {
    hide WholeRate, FullAt, Wait, LeastWaitFor, WholeTokens, SpendableTokens, SnapToZero;
    TruncIsDivision(period, s.limit);
    UsableRate(period, s.limit);
    WholeOf(s.remaining);
    hide RateOf;
    if r.hits > s.burst {
    } else if r.hits <= s.remaining.Floor {
      WholeOf(s.remaining - r.hits as real);
      ExactSnap(s.remaining - r.hits as real);
    } else {
      WaitIsLeast(s, s.limit, period, env.now, r.hits);
    }
  }

  /** A request that may wait takes hits that fit, never more than the burst; for others it names the least wait
      and books them if that is within the caller's bound and the server's, at the price of debt. */
  lemma WaitingRequest(b: Bucket, expireAt: int, r: Request, env: Env)
    requires b.remaining >= 0.0 && Sensible(r, env) && r.maxWait > 0
    ensures var now, burst, step := env.now, Capacity(r), ExistingStep(EXACT, b, expireAt, r, env);
            var have := Available(b, r, env, now);
            var settled := Bucket(r.limit, r.duration, have, Max(now, b.updatedAt), burst);
            var kept := if r.hits == 0 then expireAt else now + r.duration;
            var shown := Answer(UnderLimit, r.limit, have.Floor, BackAt(r, env, now, have.Floor), 0);
            if r.hits > burst then step == Step(Held(settled, kept), shown.(status := NeverFits))
            else if r.hits <= have.Floor then
              var left := have - r.hits as real;
              step == Step(Held(settled.(remaining := left), kept),
                           shown.(remaining := left.Floor, resetTime := BackAt(r, env, now, left.Floor)))
            else
              && step.answer.Answer?
              && LeastWaitFor(settled, r.limit, r.duration, now, r.hits, step.answer.retryAfter)
              && if step.answer.retryAfter > r.maxWait || step.answer.retryAfter > env.ceiling
                 then step == Step(Held(settled, kept),
                                   shown.(status := OverLimit, retryAfter := step.answer.retryAfter))
                 else
                   var booked, full := settled.(remaining := have - r.hits as real), step.answer.resetTime;
                   && step == Step(Held(booked, Max(kept, full)),
                                   Answer(Scheduled, r.limit, 0, full, step.answer.retryAfter))
                   && FullFrom(booked, r.limit, r.duration, full)
  {
    hide Settled, SettledRate, Available, Clock, FullAt, LeastWaitFor, FullFrom, CountHits, NewBurst;
    var now, burst := env.now, Capacity(r);
    var have := Available(b, r, env, now);
    SettlesToAvailable(b, r, env, now);
    AvailableAtMost(b, r, env, now);
    var settled := Bucket(r.limit, r.duration, have, Max(now, b.updatedAt), burst);
    CountWaiting(settled, r, env, r.duration, false);
    FullAtIsFirst(settled.(remaining := have - r.hits as real), r.limit, r.duration);
    hide RateOf;
  }

  lemma UsableRate(period: int, limit: int)
    requires limit > 0 && period > 0
    ensures RateOf(period, limit) == PerToken(period as real / limit as real) && Usable(RateOf(period, limit))
  {
  }

  // ----- A key stored in debt -----

  /** What the debt has come to: it is credited by the owner's clock, at the rate it was booked at. */
  function Outstanding(b: Bucket, now: int): real
    requires b.duration > 0
  {
    LevelAt(b, b.limit, b.duration, now)
  }

  ghost predicate InDebt(b: Bucket) {
    b.remaining < 0.0 && b.limit > 0 && b.duration > 0 && b.burst >= 0
  }

  lemma CreditsStored(b: Bucket, r: Request, env: Env)
    requires InDebt(b)
    ensures Clock(b, r, env) == env.now
    ensures Credited(b, r, env, env.now) == Outstanding(b, env.now)
    ensures DebtAt(EXACT, b, env.now) <==> Outstanding(b, env.now) < 0.0
  {
    hide CreditedLeak, LeakOver;
    UsableRate(b.duration, b.limit);
    LeakIsCredit(b, env.now, b.limit, b.duration);
    if !KeepStored(b, r) && !Rescale(b, r) {
      assert RequestRate(r, env) == StoredRate(b);
    }
  }

  /** A reset pays any debt off and fills the bucket, at any tolerance and whatever the rate. */
  lemma ResetRequest(tol: Tolerance, b: Bucket, expireAt: int, r: Request, env: Env)
    requires Sane(tol) && Validated(r) && r.reset && Capacity(r) >= 0 && (r.gregorian ==> env.span.Span?)
    ensures var step, burst := ExistingStep(tol, b, expireAt, r, env), Capacity(r);
            var now := if b.remaining < 0.0 then env.now else r.createdAt;
            var fits := r.hits <= burst;
            var left := if fits then Min(burst, burst - r.hits) else if r.drain then 0 else burst;
            && step.slot == Held(Bucket(r.limit, r.duration, left as real, Max(now, b.updatedAt), burst),
                                 if r.hits == 0 then expireAt else now + Lifetime(r, env))
            && step.answer.Answer? && step.answer.status == (if fits then UnderLimit else OverLimit)
            && step.answer.limit == r.limit && step.answer.remaining == left && step.answer.retryAfter == 0
  {
    hide RateOf, DebtAt, Rescaled, WholeRate, WholeTokens, FullAt;
    var burst := Capacity(r);
    WholeNumber(tol, burst);
    if r.hits <= burst {
      WholeNumber(tol, Min(burst, burst - r.hits));
    }
  }

  lemma WholeNumber(tol: Tolerance, n: int)
    requires Sane(tol) && n >= 0
    ensures SnapToZero(tol, n as real) == n as real && WholeTokens(tol, n as real) == n
  {
    assert (n as real + tol.token).Floor == n;
  }

  /** The request's own limit and duration count from now on, unless they give no rate or are calendar time. */
  predicate Adopted(r: Request) {
    !r.gregorian && r.limit > 0 && r.duration > 0
  }

  /** A debt not yet repaid as a request leaves it, before anything is booked: the same time to go at the new
      rate, under the new burst if it is positive. */
  ghost predicate CarriesOver(b: Bucket, r: Request, env: Env, settled: Bucket)
    requires InDebt(b)
  {
    && settled.limit == (if Adopted(r) then r.limit else b.limit)
    && settled.duration == (if Adopted(r) then r.duration else b.duration)
    && settled.burst == (if Capacity(r) > 0 then Capacity(r) else b.burst)
    && settled.updatedAt == Max(env.now, b.updatedAt) && settled.limit > 0 && settled.duration > 0
    && settled.remaining * (settled.duration as real / settled.limit as real) ==
       Outstanding(b, env.now) * (b.duration as real / b.limit as real)
  }

  lemma SettlesDebt(b: Bucket, r: Request, env: Env)
    requires InDebt(b) && Outstanding(b, env.now) < 0.0 && !r.reset
    ensures var settled := Settled(EXACT, b, r, env);
            && CarriesOver(b, r, env, settled) && settled.remaining < 0.0
            && SettledRate(EXACT, b, r, env) == RateOf(settled.duration, settled.limit)
            && NewBurst(EXACT, b, r, env.now) == settled.burst
  {
    hide DebtAt, LeakOver, Credited, RateOf, RequestRate, SettledBalance, Rescaled, Outstanding;
    CreditsStored(b, r, env);
    StoredIsUsable(b);
    RescaledDebt(b, r, env);
    DebtSettles(b, r, env);
    AdoptedRate(b, r, env);
  }

  lemma RescaledDebt(b: Bucket, r: Request, env: Env)
    requires InDebt(b) && Outstanding(b, env.now) < 0.0
    ensures var owed, debt := Outstanding(b, env.now), Rescaled(EXACT, b, r, env, env.now);
            && debt < 0.0
            && (!Rescale(b, r) ==> debt == owed)
            && (Rescale(b, r) ==>
                  && r.limit > 0 && r.duration > 0
                  && debt * (r.duration as real / r.limit as real) == owed * (b.duration as real / b.limit as real))
  {
    hide LeakOver, Credited, SnapToZero;
    CreditsStored(b, r, env);
    StoredIsUsable(b);
    ExactSnap(Outstanding(b, env.now));
    if Rescale(b, r) {
      UsableRate(r.duration, r.limit);
      RescaledTime(Outstanding(b, env.now), b.duration as real / b.limit as real, r.duration as real / r.limit as real);
    }
  }

  lemma DebtSettles(b: Bucket, r: Request, env: Env)
    requires InDebt(b) && Outstanding(b, env.now) < 0.0 && !r.reset && Rescaled(EXACT, b, r, env, env.now) < 0.0
    ensures SettledBalance(EXACT, b, r, env, env.now) == Rescaled(EXACT, b, r, env, env.now)
    ensures NewBurst(EXACT, b, r, env.now) == if Capacity(r) > 0 then Capacity(r) else b.burst
  {
    hide DebtAt, Rescaled, Outstanding;
    CreditsStored(b, r, env);
  }

  lemma StoredIsUsable(b: Bucket)
    requires b.limit > 0 && b.duration > 0
    ensures StoredRate(b) == PerToken(b.duration as real / b.limit as real) && Usable(StoredRate(b))
    ensures StoredRate(b) == RateOf(b.duration, b.limit)
  {
  }

  lemma AdoptedRate(b: Bucket, r: Request, env: Env)
    requires InDebt(b)
    ensures !r.gregorian ==> RequestRate(r, env) == RateOf(r.duration, r.limit)
    ensures !KeepStored(b, r) ==> Adopted(r)
  {
  }

  lemma RescaledTime(debt: real, before: real, after: real)
    requires before > 0.0 && after > 0.0 && debt < 0.0
    ensures debt * (before / after) < 0.0 && debt * (before / after) * after == debt * before
  {
    var q := before / after;
    assert q * after == before && q > 0.0;
    assert debt * q * after == debt * (q * after);
  }

  /** Whether a request on a debt brought another burst, limit or duration. */
  predicate Changes(b: Bucket, r: Request, burst: int) {
    b.burst != burst || b.limit != r.limit || b.duration != r.duration
  }

  /** A plain request on a debt takes nothing and pays nothing off; the answer shows no tokens, and names the
      millisecond the bucket is full again. A refund or a change keeps the key until then. */
  lemma PlainOnDebt(b: Bucket, expireAt: int, r: Request, env: Env)
    requires InDebt(b) && Outstanding(b, env.now) < 0.0 && Validated(r) && !r.reset
    requires (r.maxWait == 0 || r.hits == 0) && (r.gregorian ==> env.span.Span?)
    ensures var step := ExistingStep(EXACT, b, expireAt, r, env);
            && step.slot.Held? && step.answer.Answer?
            && var settled, full := step.slot.bucket, step.answer.resetTime;
            && CarriesOver(b, r, env, settled) && FullFrom(settled, settled.limit, settled.duration, full)
            && step.answer == Answer(if r.hits > 0 then OverLimit else UnderLimit, settled.limit, 0, full, 0)
            && step.slot.expireAt == if r.hits < 0 || Changes(b, r, settled.burst)
                                     then Max(expireAt, Max(env.now + Lifetime(r, env), full)) else expireAt
  {
    hide Settled, SettledRate, DebtAt, CarriesOver, FullFrom, FullAt, WholeRate, NewBurst, Outstanding;
    var settled := Settled(EXACT, b, r, env);
    SettlesDebt(b, r, env);
    CreditsStored(b, r, env);
    CarriedRate(b, r, env, settled);
    FullAtIsFirst(settled, settled.limit, settled.duration);
    hide RateOf;
    NegativeTokens(settled.remaining);
  }

  lemma CarriedRate(b: Bucket, r: Request, env: Env, settled: Bucket)
    requires InDebt(b) && CarriesOver(b, r, env, settled)
    ensures settled.limit > 0 && settled.duration > 0 && settled.burst >= 0
    ensures Usable(RateOf(settled.duration, settled.limit))
  {
    UsableRate(settled.duration, settled.limit);
  }

  lemma NegativeTokens(x: real)
    requires x < 0.0
    ensures WholeTokens(EXACT, x) <= 0 && SpendableTokens(EXACT, x) == 0
  {
  }

  /** A request that may wait is booked behind the debt, under the same bounds. */
  lemma WaitingOnDebt(b: Bucket, expireAt: int, r: Request, env: Env)
    requires InDebt(b) && Outstanding(b, env.now) < 0.0 && Validated(r) && r.maxWait > 0 && r.hits > 0
    ensures var step := ExistingStep(EXACT, b, expireAt, r, env);
            var settled, full := Settled(EXACT, b, r, env), step.answer.resetTime;
            && CarriesOver(b, r, env, settled) && step.slot.Held? && step.answer.Answer?
            && var changed := Max(expireAt, Max(env.now + r.duration, full));
            && FullFrom(step.slot.bucket, settled.limit, settled.duration, full)
            && if r.hits > settled.burst then
                 step == Step(Held(settled, if Changes(b, r, settled.burst) then changed else expireAt),
                              Answer(NeverFits, settled.limit, 0, full, 0))
               else
                 && LeastWaitFor(settled, settled.limit, settled.duration, env.now, r.hits, step.answer.retryAfter)
                 && if step.answer.retryAfter > r.maxWait || step.answer.retryAfter > env.ceiling
                    then step == Step(Held(settled, if Changes(b, r, settled.burst) then changed else expireAt),
                                      Answer(OverLimit, settled.limit, 0, full, step.answer.retryAfter))
                    else step == Step(Held(settled.(remaining := settled.remaining - r.hits as real), changed),
                                      Answer(Scheduled, settled.limit, 0, full, step.answer.retryAfter))
  {
    hide Settled, SettledRate, DebtAt, CarriesOver, FullFrom, FullAt, WholeRate, NewBurst, Outstanding, LeastWaitFor,
         Wait;
    var settled := Settled(EXACT, b, r, env);
    SettlesDebt(b, r, env);
    CreditsStored(b, r, env);
    CarriedRate(b, r, env, settled);
    CarriedMoment(b, r, env, settled);
    UsableRate(settled.duration, settled.limit);
    FullAtIsFirst(settled, settled.limit, settled.duration);
    FullAtIsFirst(settled.(remaining := settled.remaining - r.hits as real), settled.limit, settled.duration);
    WaitIsLeast(settled, settled.limit, settled.duration, env.now, r.hits);
    hide RateOf;
    NegativeTokens(settled.remaining);
  }

  lemma CarriedMoment(b: Bucket, r: Request, env: Env, settled: Bucket)
    requires InDebt(b) && CarriesOver(b, r, env, settled)
    ensures settled.updatedAt == Max(env.now, b.updatedAt)
  {
  }

  /** What is found where a stored debt has been repaid. */
  function Repaid(b: Bucket, r: Request, now: int): real
    requires b.duration > 0
  {
    MinReal(Capacity(r) as real, MaxReal(0.0, Outstanding(b, now) + Capacity(r) as real - b.burst as real))
  }

  lemma SettlesRepaid(b: Bucket, r: Request, env: Env)
    requires InDebt(b) && Outstanding(b, env.now) >= 0.0 && Sensible(r, env) && !r.reset
    ensures Settled(EXACT, b, r, env) ==
            Bucket(r.limit, r.duration, Repaid(b, r, env.now), Max(env.now, b.updatedAt), Capacity(r))
    ensures SettledRate(EXACT, b, r, env) == RateOf(Period(r, env), r.limit)
    ensures NewBurst(EXACT, b, r, env.now) == Capacity(r)
    ensures 0.0 <= Repaid(b, r, env.now) <= Capacity(r) as real
  {
    hide DebtAt, LeakOver, Credited, RateOf;
    CreditsStored(b, r, env);
  }

  /** A plain request on a repaid key is like one on a key not in debt, by the owner's clock; but its expiry
      stays where the debt put it, unless tokens are taken or the configuration changes. */
  lemma PlainOnRepaid(b: Bucket, expireAt: int, r: Request, env: Env)
    requires InDebt(b) && Outstanding(b, env.now) >= 0.0 && Sensible(r, env) && !r.reset && r.maxWait == 0
    ensures var now, burst := env.now, Capacity(r);
            var have := Repaid(b, r, now);
            var fits := r.hits <= have.Floor;
            var left := if fits then MinReal(burst as real, have - r.hits as real) else if r.drain then 0.0 else have;
            var step := ExistingStep(EXACT, b, expireAt, r, env);
            && step.slot.Held?
            && step.slot.bucket == Bucket(r.limit, r.duration, left, Max(now, b.updatedAt), burst)
            && step.answer == Answer(if fits then UnderLimit else OverLimit, r.limit,
                                     if fits then left.Floor else if r.drain then 0 else have.Floor,
                                     BackAt(r, env, now, if fits then left.Floor else have.Floor), 0)
            && if (fits && r.hits != 0) || Changes(b, r, burst)
               then Extended(expireAt, step.slot.bucket, now, Lifetime(r, env), r.limit, Period(r, env),
                             step.slot.expireAt)
               else step.slot.expireAt == expireAt
  {
    hide Settled, SettledRate, DebtAt, FullFrom, FullAt, WholeRate, NewBurst, Outstanding, Repaid, CountHits;
    var rate, each := RateOf(Period(r, env), r.limit), Period(r, env) / r.limit;
    SettlesRepaid(b, r, env);
    CreditsStored(b, r, env);
    TruncIsDivision(Period(r, env), r.limit);
    UsableRate(Period(r, env), r.limit);
    var settled := Settled(EXACT, b, r, env);
    CountPlain(settled, r, env, env.now, rate, true, each);
    var after := CountHits(EXACT, settled, r, env, env.now, rate, true).bucket;
    ExtendsToFull(expireAt, after, env.now, Lifetime(r, env), r.limit, Period(r, env));
    hide RateOf, Extended, ExtendExpiry;
  }

  /** The key is kept until the bucket is full, at least for its lifetime and as long as before. */
  ghost predicate Extended(expireAt: int, b: Bucket, now: int, lifetime: int, limit: int, period: int, expiry: int)
    requires period > 0
  {
    exists full :: FullFrom(b, limit, period, full) && expiry == Max(expireAt, Max(now + lifetime, full))
  }

  lemma ExtendsToFull(expireAt: int, b: Bucket, now: int, lifetime: int, limit: int, period: int)
    requires limit > 0 && period > 0 && b.remaining <= b.burst as real
    ensures Extended(expireAt, b, now, lifetime, limit, period,
                     ExtendExpiry(expireAt, b, now, lifetime, RateOf(period, limit)))
  {
    hide FullFrom;
    FullAtIsFirst(b, limit, period);
  }

  /** So is one that may wait; taking tokens or booking keeps the key until it is full. */
  lemma WaitingOnRepaid(b: Bucket, expireAt: int, r: Request, env: Env)
    requires InDebt(b) && Outstanding(b, env.now) >= 0.0 && Sensible(r, env) && r.maxWait > 0
    ensures var now, burst, step := env.now, Capacity(r), ExistingStep(EXACT, b, expireAt, r, env);
            var have := Repaid(b, r, now);
            var settled := Bucket(r.limit, r.duration, have, Max(now, b.updatedAt), burst);
            var shown := Answer(UnderLimit, r.limit, have.Floor, BackAt(r, env, now, have.Floor), 0);
            && step.slot.Held? && step.answer.Answer?
            && var keeps := step.slot.expireAt == expireAt;
               var longer := Extended(expireAt, step.slot.bucket, now, r.duration, r.limit, r.duration,
                                       step.slot.expireAt);
            if r.hits > burst then
              && step.slot.bucket == settled && step.answer == shown.(status := NeverFits)
              && if Changes(b, r, burst) then longer else keeps
            else if r.hits <= have.Floor then
              var left := have - r.hits as real;
              && step.slot.bucket == settled.(remaining := left)
              && step.answer == shown.(remaining := left.Floor, resetTime := BackAt(r, env, now, left.Floor))
              && if r.hits != 0 || Changes(b, r, burst) then longer else keeps
            else
              && LeastWaitFor(settled, r.limit, r.duration, now, r.hits, step.answer.retryAfter)
              && if step.answer.retryAfter > r.maxWait || step.answer.retryAfter > env.ceiling then
                   && step.slot.bucket == settled
                   && step.answer == shown.(status := OverLimit, retryAfter := step.answer.retryAfter)
                   && if Changes(b, r, burst) then longer else keeps
                 else
                   && step.slot.bucket == settled.(remaining := have - r.hits as real) && longer
                   && step.answer.(resetTime := 0) == Answer(Scheduled, r.limit, 0, 0, step.answer.retryAfter)
                   && FullFrom(step.slot.bucket, r.limit, r.duration, step.answer.resetTime)
  {
    hide Settled, SettledRate, DebtAt, FullFrom, FullAt, NewBurst, Outstanding, Repaid, LeastWaitFor, ExtendExpiry,
         Extended, CountHits;
    var now, burst := env.now, Capacity(r);
    var have := Repaid(b, r, now);
    SettlesRepaid(b, r, env);
    CreditsStored(b, r, env);
    UsableRate(r.duration, r.limit);
    var settled := Bucket(r.limit, r.duration, have, Max(now, b.updatedAt), burst);
    var taken := settled.(remaining := have - r.hits as real);
    CountWaiting(settled, r, env, r.duration, true);
    ExtendsToFull(expireAt, settled, now, r.duration, r.limit, r.duration);
    ExtendsToFull(expireAt, taken, now, r.duration, r.limit, r.duration);
    FullAtIsFirst(taken, r.limit, r.duration);
    hide RateOf;
  }

  // ----- An unknown key, and requests without a rate -----

  /** A first request stores a full bucket less its hits; a plain one over the burst stores an empty one, and one
      that may wait nothing at all. */
  lemma FirstRequest(r: Request, env: Env)
    requires Sensible(r, env)
    ensures var now, burst := if r.maxWait > 0 then env.now else r.createdAt, Capacity(r);
            var left := if r.hits > burst then 0 else Min(burst, burst - r.hits);
            var shown := if r.hits > burst && r.maxWait > 0 then burst else left;
            NewStep(r, env) ==
            Step(if r.hits > burst && r.maxWait > 0 then Empty
                 else Held(Bucket(r.limit, Lifetime(r, env), left as real, now, burst), now + Lifetime(r, env)),
                 Answer(if r.hits <= burst then UnderLimit else if r.maxWait > 0 then NeverFits else OverLimit,
                        r.limit, shown, now + (r.limit - shown) * (r.duration / r.limit), 0))
  {
    TruncIsDivision(r.duration, r.limit);
    hide RateOf, WholeRate;
  }

  /** A duration that is no calendar code changes nothing. */
  lemma CalendarErrorChangesNothing(tol: Tolerance, b: Bucket, expireAt: int, r: Request, env: Env)
    requires r.gregorian && env.span.NotACode?
    ensures ExistingStep(tol, b, expireAt, r, env) == Step(Held(b, expireAt), CalendarError)
    ensures NewStep(r, env) == Step(Empty, CalendarError)
  {
  }

  /** With a duration of zero a positive limit leaks in at once: any later request finds a full bucket. */
  lemma ZeroDurationFills(b: Bucket, expireAt: int, r: Request, env: Env)
    requires b.remaining >= 0.0 && Validated(r) && r.maxWait == 0 && !r.gregorian && r.hits == 0 && !r.drain
    requires r.limit > 0 && r.duration == 0 && Capacity(r) >= 0 && Capacity(r) == b.burst
    requires r.createdAt > b.updatedAt && !r.reset
    ensures var step := ExistingStep(EXACT, b, expireAt, r, env);
            step.slot.Held? && step.slot.bucket.remaining == Capacity(r) as real &&
            step.answer.Answer? && step.answer.remaining == Capacity(r)
  {
    assert RateOf(0, r.limit) == PerToken(0.0);
    hide RateOf;
    WholeNumber(EXACT, Capacity(r));
  }

  /** With a limit of zero nothing leaks in, and a debt is never over. */
  lemma NoRateNeverFills(b: Bucket, expireAt: int, r: Request, env: Env)
    requires Validated(r) && r.maxWait == 0 && !r.gregorian && r.hits == 0 && !r.reset && r.limit == 0 && b.limit == 0
    requires r.burst == b.burst > 0 && b.remaining <= b.burst as real
    ensures var step := ExistingStep(EXACT, b, expireAt, r, env);
            && step.slot.Held? && step.slot.bucket.remaining == b.remaining && step.answer.Answer?
            && (b.remaining < 0.0 ==> step.answer.resetTime == 0x7FFF_FFFF_FFFF_FFFF)
  {
  }

  /** A repaid key that is given a limit of zero keeps the expiry its debt left: there is no moment it is full. */
  lemma NoRateKeepsExpiry(b: Bucket, expireAt: int, r: Request, env: Env)
    requires InDebt(b) && Outstanding(b, env.now) >= 0.0 && r.maxWait == 0 && !r.gregorian && r.hits == 0
    requires !r.reset && r.limit == 0 && r.burst > 0
    ensures var step := ExistingStep(EXACT, b, expireAt, r, env);
            && step.slot.Held? && step.slot.expireAt == expireAt && step.slot.bucket.limit == 0
            && step.slot.bucket.remaining == Repaid(b, r, env.now)
  {
    hide DebtAt, Outstanding, Credited;
    CreditsStored(b, r, env);
  }
}
