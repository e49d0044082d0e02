/**
 The token bucket: a counter for one window, and what its accounting conserves.
 */
module TokenBucket {
  import opened Numbers
  import opened LeakyBucket

  datatype Token = Token(status: Status, limit: int, duration: int, remaining: int, createdAt: int)

  datatype TokenSlot = NoToken | TokenHeld(token: Token, expireAt: int)

  datatype TokenStep = TokenStep(slot: TokenSlot, answer: Answer)

  /** A limit change shifts what remains, but not below zero. */
  function Relimited(t: Token, limit: int): Token {
    if t.limit == limit then t
    else t.(remaining := Max(0, t.remaining + limit - t.limit), limit := limit)
  }

  function NewWindowEnd(t: Token, r: Request, env: Env): int {
    if r.gregorian && env.span.Span? then env.now + env.span.left else t.createdAt + r.duration
  }

  /** The new duration puts the end of the window in the past. */
  predicate Renews(t: Token, r: Request, env: Env) {
    t.duration != r.duration && NewWindowEnd(t, r, env) <= r.createdAt
  }

  function Retimed(t: Token, r: Request, env: Env): Token {
    if t.duration == r.duration then t
    else if Renews(t, r, env) then t.(duration := r.duration, createdAt := r.createdAt, remaining := t.limit)
    else t.(duration := r.duration)
  }

  function RetimedExpiry(t: Token, expireAt: int, r: Request, env: Env): int {
    if t.duration == r.duration then expireAt
    else if Renews(t, r, env) then r.createdAt + r.duration
    else NewWindowEnd(t, r, env)
  }

  datatype TokenDecision = TokenDecision(token: Token, status: Status)

  /** Hits against a bucket whose limit and window are up to date. */
  function TakeTokens(t: Token, r: Request): TokenDecision {
    if r.hits == 0 then
      if t.remaining == 0 then TokenDecision(t, t.status)
      else TokenDecision(t.(status := UnderLimit), UnderLimit)
    else if t.remaining == 0 && r.hits > 0 then
      TokenDecision(t.(status := OverLimit), OverLimit)
    else if t.remaining == r.hits then
      TokenDecision(t.(status := UnderLimit, remaining := 0), UnderLimit)
    else if r.hits > t.remaining then
      TokenDecision(t.(status := UnderLimit, remaining := if r.drain then 0 else t.remaining), OverLimit)
    else
      TokenDecision(t.(status := UnderLimit, remaining := t.remaining - r.hits), UnderLimit)
  }

  function ExistingToken(t: Token, expireAt: int, r: Request, env: Env): TokenStep {
    if r.reset then
      TokenStep(NoToken, Answer(UnderLimit, r.limit, r.limit, 0, 0))
    else
      var t1 := Relimited(t, r.limit);
      if t.duration != r.duration && r.gregorian && env.span.NotACode? then
        TokenStep(TokenHeld(t1, expireAt), CalendarError)
      else
        var expire := RetimedExpiry(t1, expireAt, r, env);
        var d := TakeTokens(Retimed(t1, r, env), r);
        TokenStep(TokenHeld(d.token, expire), Answer(d.status, r.limit, d.token.remaining, expire, 0))
  }

  function NewToken(r: Request, env: Env): TokenStep {
    if r.gregorian && env.span.NotACode? then TokenStep(NoToken, CalendarError)
    else
      var expire := if r.gregorian then env.now + env.span.left else r.createdAt + r.duration;
      var left := if r.hits > r.limit then r.limit else r.limit - r.hits;
      TokenStep(TokenHeld(Token(UnderLimit, r.limit, r.duration, left, r.createdAt), expire),
                Answer(if r.hits > r.limit then OverLimit else UnderLimit, r.limit, left, expire, 0))
  }

  function TokenLookup(slot: TokenSlot, now: int): TokenSlot {
    if slot.TokenHeld? && slot.expireAt < now then NoToken else slot
  }

  function StepToken(slot: TokenSlot, r: Request, env: Env): TokenStep {
    match TokenLookup(slot, env.now)
    case NoToken => NewToken(r, env)
    case TokenHeld(t, expireAt) => ExistingToken(t, expireAt, r, env)
  }

  function RunTokens(events: seq<Event>): TokenSlot {
    if events == [] then NoToken
    else
      var last := events[|events| - 1];
      StepToken(RunTokens(events[..|events| - 1]), last.r, last.env).slot
  }

  // ----- The books of one window -----

  /** What happened in the current window: the net hits admitted, the tokens drains destroyed, and
      the tokens a limit cut could not take back because they were already spent. */
  datatype Ledger = Ledger(admitted: int, drained: int, forgiven: int)

  const FRESH := Ledger(0, 0, 0)

  /** What a limit change cannot take back from what remains. */
  function Shortfall(t: Token, limit: int): int {
    Max(0, -(t.remaining + limit - t.limit))
  }

  /** The entry for one answer on a known key, given what remained before the hits were counted. */
  function Booked(l: Ledger, before: int, r: Request, status: Status): Ledger {
    if status == UnderLimit then l.(admitted := l.admitted + r.hits)
    else if r.drain && r.hits > before > 0 then l.(drained := l.drained + before)
    else l
  }

  function NextLedger(l: Ledger, slot: TokenSlot, r: Request, env: Env): Ledger {
    var answer := StepToken(slot, r, env).answer;
    match TokenLookup(slot, env.now)
    case NoToken => if answer.Answer? && answer.status == UnderLimit then FRESH.(admitted := r.hits) else FRESH
    case TokenHeld(t, _) =>
      if r.reset then FRESH
      else
        var t1 := Relimited(t, r.limit);
        var l1 := l.(forgiven := l.forgiven + Shortfall(t, r.limit));
        if answer.CalendarError? then l1
        else Booked(if Renews(t1, r, env) then FRESH else l1, Retimed(t1, r, env).remaining, r, answer.status)
  }

  function Books(events: seq<Event>): Ledger {
    if events == [] then FRESH
    else
      var n := |events| - 1;
      NextLedger(Books(events[..n]), RunTokens(events[..n]), events[n].r, events[n].env)
  }

  /** Everything the window was given is accounted for. */
  ghost predicate Balances(l: Ledger, t: Token) {
    && l.admitted + l.drained + t.remaining == t.limit + l.forgiven
    && 0 <= t.remaining && 0 <= t.limit && 0 <= l.forgiven && 0 <= l.drained
  }

  ghost predicate Balanced(l: Ledger, slot: TokenSlot) {
    slot.TokenHeld? ==> Balances(l, slot.token)
  }

  lemma TakingBalances(l: Ledger, t: Token, r: Request)
    requires Balances(l, t)
    ensures var d := TakeTokens(t, r); Balances(Booked(l, t.remaining, r, d.status), d.token)
  {
  }

  lemma StepBalances(l: Ledger, slot: TokenSlot, r: Request, env: Env)
    requires r.limit >= 0 && Balanced(l, slot)
    ensures Balanced(NextLedger(l, slot, r, env), StepToken(slot, r, env).slot)
  {
    hide TakeTokens, Booked;
    match TokenLookup(slot, env.now)
    case NoToken =>
      FirstBalances(r, env);
    case TokenHeld(t, _) =>
      var t1 := Relimited(t, r.limit);
      var l1 := l.(forgiven := l.forgiven + Shortfall(t, r.limit));
      assert Balances(l1, t1);
      TakingBalances(if Renews(t1, r, env) then FRESH else l1, Retimed(t1, r, env), r);
  }

  lemma FirstBalances(r: Request, env: Env)
    requires r.limit >= 0
    ensures var step := NewToken(r, env);
            step.answer.Answer? ==>
              Balanced(if step.answer.status == UnderLimit then FRESH.(admitted := r.hits) else FRESH, step.slot)
  {
  }

  /** Conservation: in every run with limits that are not negative, the hits admitted in the window,
      the tokens drained and the tokens remaining add up to the limit and what cuts forgave. */
  lemma {:induction false} TokensAreConserved(events: seq<Event>)
    requires forall i :: 0 <= i < |events| ==> events[i].r.limit >= 0
    ensures Balanced(Books(events), RunTokens(events))
  {
    hide NextLedger, StepToken;
    if events == [] {
    } else {
      var n := |events| - 1;
      TokensAreConserved(events[..n]);
      StepBalances(Books(events[..n]), RunTokens(events[..n]), events[n].r, events[n].env);
    }
  }

  /** With one limit throughout, a window never admits more than the limit, net of refunds. */
  lemma {:induction false} NothingForgiven(events: seq<Event>, limit: int)
    requires limit >= 0 && forall i :: 0 <= i < |events| ==> events[i].r.limit == limit
    ensures Books(events).forgiven == 0
    ensures RunTokens(events).TokenHeld? ==> RunTokens(events).token.limit == limit && Books(events).admitted <= limit
  {
    TokensAreConserved(events);
    if events == [] {
    } else {
      var n := |events| - 1;
      NothingForgiven(events[..n], limit);
      TokensAreConserved(events[..n]);
      SameLimitStep(Books(events[..n]), RunTokens(events[..n]), events[n].r, events[n].env);
    }
  }

  lemma SameLimitStep(l: Ledger, slot: TokenSlot, r: Request, env: Env)
    requires l.forgiven == 0 && Balanced(l, slot) && (slot.TokenHeld? ==> slot.token.limit == r.limit)
    ensures NextLedger(l, slot, r, env).forgiven == 0
    ensures var slot' := StepToken(slot, r, env).slot; slot'.TokenHeld? ==> slot'.token.limit == r.limit
  {
  }

  // ----- A stored refusal -----

  /** Nothing is left after the first k requests. */
  ghost predicate EmptyAfter(events: seq<Event>, k: nat) {
    k <= |events| && var slot := RunTokens(events[..k]); slot.TokenHeld? && slot.token.remaining == 0
  }

  ghost predicate RefusedAt(events: seq<Event>, i: nat) {
    && i < |events| && events[i].r.hits > 0
    && var a := StepToken(RunTokens(events[..i]), events[i].r, events[i].env).answer; a.Answer? && a.status == OverLimit
  }

  ghost predicate ErrorFree(events: seq<Event>) {
    forall k :: 0 <= k < |events| ==>
      events[k].r.limit >= 0 && StepToken(RunTokens(events[..k]), events[k].r, events[k].env).answer.Answer?
  }

  /** What a prefix of a run says about its past, the run says too. */
  lemma PrefixAgrees(events: seq<Event>, n: nat, k: nat)
    requires k <= n <= |events|
    ensures EmptyAfter(events[..n], k) <==> EmptyAfter(events, k)
    ensures k < n ==> (RefusedAt(events[..n], k) <==> RefusedAt(events, k))
  {
    hide StepToken;
    assert events[..n][..k] == events[..k];
  }

  lemma ErrorFreePrefix(events: seq<Event>, n: nat)
    requires ErrorFree(events) && n <= |events|
    ensures ErrorFree(events[..n])
  {
    hide StepToken;
    assert forall k :: 0 <= k < n ==> events[..n][..k] == events[..k];
  }

  /** A request that is not an error leaves a stored refusal only by making one, or by asking about a
      bucket that already holds one and has nothing left. */
  lemma RefusalStored(slot: TokenSlot, r: Request, env: Env)
    requires var step := StepToken(slot, r, env);
             step.slot.TokenHeld? && step.slot.token.status == OverLimit && step.answer.Answer?
    requires slot.TokenHeld? ==> 0 <= slot.token.remaining
    ensures StepToken(slot, r, env).slot.token.remaining == 0
    ensures var step := StepToken(slot, r, env);
            || (r.hits > 0 && step.answer.status == OverLimit)
            || (slot.TokenHeld? && slot.token.status == OverLimit)
  {
  }

  /** A stored OVER_LIMIT means the bucket has been empty since a refusal. */
  lemma {:induction false} RefusalMeansEmpty(events: seq<Event>) returns (i: nat)
    requires ErrorFree(events)
    requires RunTokens(events).TokenHeld? && RunTokens(events).token.status == OverLimit
    ensures RefusedAt(events, i) && forall k :: i < k <= |events| ==> EmptyAfter(events, k)
  {
    hide StepToken, EmptyAfter;
    var n := |events| - 1;
    ErrorFreePrefix(events, n);
    LastStep(events);
    if RefusedAt(events, n) {
      i := n;
    } else {
      i := RefusalMeansEmpty(events[..n]);
      PrefixAgrees(events, n, i);
      forall k | i < k <= |events|
        ensures EmptyAfter(events, k)
      {
        if k <= n {
          PrefixAgrees(events, n, k);
        }
      }
    }
  }

  lemma LastStep(events: seq<Event>)
    requires ErrorFree(events) && RunTokens(events).TokenHeld? && RunTokens(events).token.status == OverLimit
    ensures EmptyAfter(events, |events|)
    ensures var init := events[..|events| - 1];
            RefusedAt(events, |events| - 1) || (RunTokens(init).TokenHeld? && RunTokens(init).token.status == OverLimit)
  {
    hide StepToken;
    var n := |events| - 1;
    ErrorFreePrefix(events, n);
    TokensAreConserved(events[..n]);
    assert events[..n + 1] == events;
    RefusalStored(RunTokens(events[..n]), events[n].r, events[n].env);
  }
}
