/**
 The leaky bucket with scheduled admission, as a function of the stored bucket, the request and
 the owner's clock. A balance is a number of tokens, possibly fractional. Below zero it is debt:
 the queue of slots already promised to earlier callers.
 */
module LeakyBucket {
  import opened Numbers

  /** How far a balance may be from zero, or a wait from a whole millisecond, and still be rounded
      to it. The code absorbs float error with fixed values; zero gives exact arithmetic. */
  datatype Tolerance = Tolerance(token: real, wait: real)

  const CODE_TOLERANCE := Tolerance(0.000000001, 0.000001)
  const EXACT := Tolerance(0.0, 0.0)

  ghost predicate Sane(tol: Tolerance) {
    0.0 <= tol.token < 1.0 && 0.0 <= tol.wait
  }

  /** What a saturated conversion to 64 bits yields for an infinite moment. */
  const NEVER := 0x7FFF_FFFF_FFFF_FFFF

  datatype Status = UnderLimit | OverLimit | NeverFits | Scheduled

  /** What the calendar says about a Gregorian duration code at the moment of a request: not a code,
      or the whole length of the interval and the part of it still to come, in milliseconds. */
  datatype Span = NotACode | Span(whole: int, left: int)

  datatype Request = Request(
    hits: int, limit: int, duration: int, burst: int, maxWait: int, createdAt: int,
    gregorian: bool, reset: bool, drain: bool)

  /** The owner's clock, the server's cap on a booked wait, and the calendar. */
  datatype Env = Env(now: int, ceiling: int, span: Span)

  datatype Answer =
    | Answer(status: Status, limit: int, remaining: int, resetTime: int, retryAfter: int)
    | CalendarError

  datatype Bucket = Bucket(limit: int, duration: int, remaining: real, updatedAt: int, burst: int)

  /** A key's place in the cache. */
  datatype Slot = Empty | Held(bucket: Bucket, expireAt: int)

  datatype Step = Step(slot: Slot, answer: Answer)

  // ----- Rates -----

  /** Milliseconds per token. A limit of zero gives no number; a duration of zero or a negative
      limit or duration gives one no wait can be computed from. */
  datatype Rate = NoRate | PerToken(ms: real)

  function RateOf(duration: int, limit: int): Rate {
    if limit == 0 then NoRate else PerToken(duration as real / limit as real)
  }

  predicate Usable(rate: Rate) {
    rate.PerToken? && rate.ms > 0.0
  }

  function StoredRate(b: Bucket): Rate {
    RateOf(b.duration, b.limit)
  }

  function RequestRate(r: Request, env: Env): Rate {
    if r.gregorian && env.span.Span? then RateOf(env.span.whole, r.limit) else RateOf(r.duration, r.limit)
  }

  /** How long the request keeps a key cached. */
  function RequestDuration(r: Request, env: Env): int {
    if r.gregorian && env.span.Span? then env.span.left else r.duration
  }

  /** The rate as the whole milliseconds used in reset times. */
  function WholeRate(rate: Rate): int {
    if rate.NoRate? then 0 else Trunc(rate.ms)
  }

  // ----- Balances -----

  function SnapToZero(tol: Tolerance, balance: real): real {
    if -tol.token < balance < tol.token then 0.0 else balance
  }

  function WholeTokens(tol: Tolerance, balance: real): int {
    Trunc(balance + tol.token)
  }

  function SpendableTokens(tol: Tolerance, balance: real): int {
    Max(0, WholeTokens(tol, balance))
  }

  /** Tokens that leaked in since the last credit. A rate of zero leaks without bound, which any
      amount that fills the bucket stands for: the clamp to burst follows every credit. */
  function CreditedLeak(b: Bucket, now: int, rate: Rate): real {
    if now <= b.updatedAt || rate.NoRate? then 0.0
    else if rate.ms == 0.0 then MaxReal(0.0, MaxReal(0.0, b.burst as real) - b.remaining)
    else (now - b.updatedAt) as real / rate.ms
  }

  predicate DebtAt(tol: Tolerance, b: Bucket, now: int) {
    var leak := if Usable(StoredRate(b)) then CreditedLeak(b, now, StoredRate(b)) else 0.0;
    SnapToZero(tol, b.remaining + leak) < 0.0
  }

  /** When the balance is back at burst. */
  function FullAt(b: Bucket, rate: Rate): int {
    if rate.NoRate? then NEVER
    else Ceil(b.updatedAt as real + (b.burst as real - b.remaining) * rate.ms)
  }

  function ExtendExpiry(expireAt: int, b: Bucket, now: int, duration: int, rate: Rate): int {
    Max(expireAt, Max(now + duration, FullAt(b, rate)))
  }

  // ----- Crediting and reconfiguring -----

  /** A burst left out of the request is its limit. */
  function RequestBurst(r: Request): int {
    if r.burst == 0 then r.limit else r.burst
  }

  predicate RequestUsable(r: Request) {
    r.limit > 0 && r.duration > 0
  }

  predicate ConfigChanged(b: Bucket, r: Request) {
    b.limit != r.limit || b.duration != r.duration
  }

  /** A key in debt, and any request that is willing to wait, is timed by the owner's clock. */
  function Clock(b: Bucket, r: Request, env: Env): int {
    if r.maxWait > 0 || b.remaining < 0.0 then env.now else r.createdAt
  }

  /** A calendar rate or an unusable one leaves the stored configuration alone while in debt. */
  predicate KeepStored(b: Bucket, r: Request) {
    (r.gregorian || !RequestUsable(r)) && b.remaining < 0.0 && Usable(StoredRate(b))
  }

  /** A changed rate rescales the debt booked at the stored one. */
  predicate Rescale(b: Bucket, r: Request) {
    !r.gregorian && RequestUsable(r) && b.remaining < 0.0 && ConfigChanged(b, r) && Usable(StoredRate(b))
  }

  /** A key still in debt keeps its burst unless the request brings a positive one, or a reset. */
  function NewBurst(tol: Tolerance, b: Bucket, r: Request, now: int): int {
    var burst := RequestBurst(r);
    if DebtAt(tol, b, now) && (burst < 0 || (burst == 0 && !r.reset)) then b.burst else burst
  }

  function CreditRate(b: Bucket, r: Request, env: Env): Rate {
    if KeepStored(b, r) || Rescale(b, r) then StoredRate(b) else RequestRate(r, env)
  }

  function Credited(b: Bucket, r: Request, env: Env, now: int): real {
    b.remaining + CreditedLeak(b, now, CreditRate(b, r, env))
  }

  /** Debt that the credit did not repay, in tokens of the new rate. */
  function Rescaled(tol: Tolerance, b: Bucket, r: Request, env: Env, now: int): real {
    var credited := Credited(b, r, env, now);
    if Rescale(b, r) && SnapToZero(tol, credited) < 0.0
    then credited * (StoredRate(b).ms / RateOf(r.duration, r.limit).ms)
    else credited
  }

  /** A burst change shifts a balance, but leaves debt alone. */
  function Shifted(tol: Tolerance, b: Bucket, burst: int, balance: real): real {
    if burst != b.burst && SnapToZero(tol, balance) >= 0.0
    then MaxReal(0.0, balance + (burst - b.burst) as real)
    else balance
  }

  function SettledBalance(tol: Tolerance, b: Bucket, r: Request, env: Env, now: int): real {
    var burst := NewBurst(tol, b, r, now);
    var shifted := Shifted(tol, b, burst, Rescaled(tol, b, r, env, now));
    SnapToZero(tol, MinReal(burst as real, if r.reset then burst as real else shifted))
  }

  /** The bucket brought up to the moment of the request, before any hits are counted. */
  function Settled(tol: Tolerance, b: Bucket, r: Request, env: Env): Bucket {
    var now := Clock(b, r, env);
    var balance := SettledBalance(tol, b, r, env, now);
    var adopt := !KeepStored(b, r) || balance >= 0.0;
    Bucket(
      if adopt then r.limit else b.limit,
      if adopt then r.duration else b.duration,
      balance, Max(now, b.updatedAt), NewBurst(tol, b, r, now))
  }

  /** The rate hits are counted at once the bucket is settled. */
  function SettledRate(tol: Tolerance, b: Bucket, r: Request, env: Env): Rate {
    if !KeepStored(b, r) || SettledBalance(tol, b, r, env, Clock(b, r, env)) >= 0.0
    then RequestRate(r, env) else StoredRate(b)
  }

  predicate WasInDebt(b: Bucket, r: Request) {
    b.remaining < 0.0 && !r.reset
  }

  // ----- Deciding -----

  /** What the hits did to a settled bucket. */
  datatype Decision = Decision(bucket: Bucket, answer: Answer, extend: bool)

  function StatusAnswer(tol: Tolerance, b: Bucket, now: int, rate: Rate): Answer {
    Answer(UnderLimit, b.limit, SpendableTokens(tol, b.remaining),
           if b.remaining < 0.0 then FullAt(b, rate)
           else now + (b.limit - WholeTokens(tol, b.remaining)) * WholeRate(rate),
           0)
  }

  /** The wait after which the leak covers the hits. */
  function Wait(tol: Tolerance, b: Bucket, hits: int, now: int, ms: real): int {
    Max(1, Ceil((Max(b.updatedAt, now) - now) as real + (hits as real - b.remaining) * ms - tol.wait))
  }

  function ScheduleHits(tol: Tolerance, b: Bucket, r: Request, env: Env, rate: Rate, wasInDebt: bool): Decision {
    var rl := StatusAnswer(tol, b, env.now, rate);
    if r.hits > b.burst || !Usable(rate) then
      Decision(b, rl.(status := NeverFits), false)
    else if r.hits <= WholeTokens(tol, b.remaining) then
      var b' := b.(remaining := SnapToZero(tol, b.remaining - r.hits as real));
      var left := SpendableTokens(tol, b'.remaining);
      Decision(b', rl.(remaining := left, resetTime := env.now + (rl.limit - left) * WholeRate(rate)), wasInDebt)
    else
      var wait := Wait(tol, b, r.hits, env.now, rate.ms);
      if wait > Min(r.maxWait, env.ceiling) then
        Decision(b, rl.(status := OverLimit, retryAfter := wait), false)
      else
        var b' := b.(remaining := b.remaining - r.hits as real);
        Decision(b', Answer(Scheduled, rl.limit, 0, FullAt(b', rate), wait), true)
  }

  function CountHits(tol: Tolerance, b: Bucket, r: Request, env: Env, now: int, rate: Rate, wasInDebt: bool): Decision {
    var rl := StatusAnswer(tol, b, now, rate);
    if r.hits == 0 then
      Decision(b, rl, false)
    else if r.maxWait > 0 then
      ScheduleHits(tol, b, r, env, rate, wasInDebt)
    else if r.hits < 0 && b.remaining < 0.0 then
      Decision(b, rl, true)
    else if r.hits > WholeTokens(tol, b.remaining) then
      if r.drain
      then Decision(b.(remaining := MinReal(b.remaining, 0.0)), rl.(status := OverLimit, remaining := 0), false)
      else Decision(b, rl.(status := OverLimit), false)
    else
      var b' := b.(remaining := SnapToZero(tol, MinReal(b.burst as real, b.remaining - r.hits as real)));
      var left := WholeTokens(tol, b'.remaining);
      Decision(b', rl.(remaining := left, resetTime := now + (rl.limit - left) * WholeRate(rate)), wasInDebt)
  }

  /** When the key expires after the request. */
  function NewExpiry(tol: Tolerance, b: Bucket, expireAt: int, r: Request, env: Env, d: Decision): int {
    var now := Clock(b, r, env);
    var duration := RequestDuration(r, env);
    var rate := SettledRate(tol, b, r, env);
    var touched := if r.hits != 0 && !WasInDebt(b, r) then now + duration else expireAt;
    var reconfigured :=
      WasInDebt(b, r) && (b.burst != NewBurst(tol, b, r, now) || ConfigChanged(b, r)) && Usable(rate);
    if d.extend || reconfigured then ExtendExpiry(touched, d.bucket, now, duration, rate) else touched
  }

  function Decided(tol: Tolerance, b: Bucket, r: Request, env: Env): Decision {
    CountHits(tol, Settled(tol, b, r, env), r, env, Clock(b, r, env), SettledRate(tol, b, r, env), WasInDebt(b, r))
  }

  function ExistingStep(tol: Tolerance, b: Bucket, expireAt: int, r: Request, env: Env): Step {
    if r.gregorian && env.span.NotACode? then Step(Held(b, expireAt), CalendarError)
    else
      var d := Decided(tol, b, r, env);
      Step(Held(d.bucket, NewExpiry(tol, b, expireAt, r, env, d)), d.answer)
  }

  // ----- A key seen for the first time -----

  function NewStep(r: Request, env: Env): Step {
    if r.gregorian && env.span.NotACode? then Step(Empty, CalendarError)
    else
      var now := if r.maxWait > 0 then env.now else r.createdAt;
      var duration := RequestDuration(r, env);
      var wholeRate := WholeRate(RateOf(r.duration, r.limit));
      var burst := RequestBurst(r);
      if r.maxWait > 0 && r.hits > burst then
        Step(Empty, Answer(NeverFits, r.limit, burst, now + (r.limit - burst) * wholeRate, 0))
      else if r.hits > burst then
        Step(Held(Bucket(r.limit, duration, 0.0, now, burst), now + duration),
             Answer(OverLimit, r.limit, 0, now + r.limit * wholeRate, 0))
      else
        var remaining := Min(burst, burst - r.hits);
        Step(Held(Bucket(r.limit, duration, remaining as real, now, burst), now + duration),
             Answer(UnderLimit, r.limit, remaining, now + (r.limit - remaining) * wholeRate, 0))
  }

  // ----- One key over time -----

  /** A lookup finds no expired key, unless keys are kept for good. */
  function Lookup(slot: Slot, now: int, keep: bool): Slot {
    if slot.Held? && !keep && slot.expireAt < now then Empty else slot
  }

  function LeakyStep(tol: Tolerance, keep: bool, slot: Slot, r: Request, env: Env): Step {
    match Lookup(slot, env.now, keep)
    case Empty => NewStep(r, env)
    case Held(b, expireAt) => ExistingStep(tol, b, expireAt, r, env)
  }

  /** What every entry point checks before a request reaches the algorithm. */
  predicate Validated(r: Request) {
    r.maxWait == 0 || (r.maxWait > 0 && !r.gregorian && !r.drain && !r.reset && r.hits >= 0)
  }

  /** One request of a run, with what the owner saw and answered. */
  datatype Event = Event(r: Request, env: Env)

  /** The slot after a run of requests on one key, starting from an unknown key. */
  function Run(tol: Tolerance, keep: bool, events: seq<Event>): Slot {
    if events == [] then Empty
    else
      var last := events[|events| - 1];
      LeakyStep(tol, keep, Run(tol, keep, events[..|events| - 1]), last.r, last.env).slot
  }

  lemma RunExtends(tol: Tolerance, keep: bool, events: seq<Event>, e: Event)
    ensures Run(tol, keep, events + [e]) == LeakyStep(tol, keep, Run(tol, keep, events), e.r, e.env).slot
  {
    hide LeakyStep;
    assert (events + [e])[..|events|] == events;
  }

  /** The slot after a run that finds a key with what it holds already. */
  function RunFrom(tol: Tolerance, keep: bool, slot: Slot, events: seq<Event>): Slot {
    if events == [] then slot
    else
      var last := events[|events| - 1];
      LeakyStep(tol, keep, RunFrom(tol, keep, slot, events[..|events| - 1]), last.r, last.env).slot
  }

  lemma {:induction false} RunFromEmpty(tol: Tolerance, keep: bool, events: seq<Event>)
    ensures RunFrom(tol, keep, Empty, events) == Run(tol, keep, events)
  {
    hide LeakyStep;
    if events == [] {
    } else {
      RunFromEmpty(tol, keep, events[..|events| - 1]);
    }
  }

  /** A run goes on from where its first part led. */
  lemma {:induction false} RunFromPart(tol: Tolerance, keep: bool, slot: Slot, events: seq<Event>, more: seq<Event>)
    ensures RunFrom(tol, keep, slot, events + more) == RunFrom(tol, keep, RunFrom(tol, keep, slot, events), more)
  {
    hide LeakyStep;
    if more == [] {
      assert events + more == events;
    } else {
      var n := |more| - 1;
      RunFromPart(tol, keep, slot, events, more[..n]);
      assert (events + more)[..|events| + n] == events + more[..n];
    }
  }

  /** The answer to the i-th request of a run. */
  function AnswerAt(tol: Tolerance, keep: bool, events: seq<Event>, i: nat): Answer
    requires i < |events|
  {
    LeakyStep(tol, keep, Run(tol, keep, events[..i]), events[i].r, events[i].env).answer
  }

  ghost predicate ClockRuns(events: seq<Event>) {
    forall i, j :: 0 <= i < j < |events| ==> events[i].env.now <= events[j].env.now
  }

  /** The moment debt is repaid by leak alone: the exact grant time of the latest booking. */
  function ClearAt(b: Bucket): real
    requires Usable(StoredRate(b))
  {
    b.updatedAt as real - b.remaining * StoredRate(b).ms
  }
}
