/**
 How long a token bucket's window lasts and what it admits: a window runs from the request that finds no
 bucket to the end of its duration, and in it hits are admitted exactly while they fit what remains.
 */
module TokenWindow {
  import opened Numbers
  import opened LeakyBucket
  import opened TokenBucket

  /** A request of one limit and duration that takes tokens or asks, on one shared clock. */
  ghost predicate Regular(limit: int, duration: int, e: Event) {
    && e.r.limit == limit && e.r.duration == duration && e.r.hits >= 0 && !e.r.gregorian && !e.r.reset
    && e.r.createdAt == e.env.now
  }

  ghost predicate RegularRun(limit: int, duration: int, events: seq<Event>) {
    ClockRuns(events) && forall i :: 0 <= i < |events| ==> Regular(limit, duration, events[i])
  }

  /** A bucket of that limit and duration, in the window it was made for. */
  ghost predicate InWindow(limit: int, duration: int, slot: TokenSlot) {
    slot.TokenHeld? ==>
      && slot.token.limit == limit && slot.token.duration == duration && 0 <= slot.token.remaining <= limit
      && slot.expireAt == slot.token.createdAt + duration
  }

  // ----- One request -----

  /** When the window a request falls into began: with the bucket it finds, or now. */
  function WindowStart(slot: TokenSlot, now: int): int {
    if slot.TokenHeld? && now <= slot.expireAt then slot.token.createdAt else now
  }

  /** What is left for it there. */
  function Left(limit: int, slot: TokenSlot, now: int): int {
    if slot.TokenHeld? && now <= slot.expireAt then slot.token.remaining else limit
  }

  /** A request is admitted if and only if its hits fit what is left, which falls by exactly those hits; one
      that is refused takes nothing, unless it drains a bucket it finds. The answer names the end of the
      window, a duration after its start. */
  lemma RequestInWindow(limit: int, duration: int, slot: TokenSlot, e: Event)
    requires limit >= 0 && Regular(limit, duration, e) && InWindow(limit, duration, slot)
    ensures var step := StepToken(slot, e.r, e.env);
            var start, left := WindowStart(slot, e.env.now), Left(limit, slot, e.env.now);
            var known := slot.TokenHeld? && e.env.now <= slot.expireAt;
            var left' := if e.r.hits <= left then left - e.r.hits else if known && e.r.drain then 0 else left;
            && step.slot.TokenHeld? && InWindow(limit, duration, step.slot)
            && step.slot.token.createdAt == start && step.slot.token.remaining == left'
            && step.answer.Answer? && step.answer.limit == limit && step.answer.remaining == left'
            && step.answer.resetTime == start + duration
            && (e.r.hits > 0 ==> step.answer.status == if e.r.hits <= left then UnderLimit else OverLimit)
  {
  }

  // ----- Runs -----

  /** The hits of the n-th request, if it was admitted. */
  function Admitted(events: seq<Event>, n: nat): int
    requires n < |events|
  {
    var a := StepToken(RunTokens(events[..n]), events[n].r, events[n].env).answer;
    if a.Answer? && a.status == UnderLimit then events[n].r.hits else 0
  }

  /** The hits admitted from one moment through another. */
  function Taken(events: seq<Event>, lo: int, hi: int): int {
    if events == [] then 0
    else
      var n := |events| - 1;
      Taken(events[..n], lo, hi) + if lo <= events[n].env.now <= hi then Admitted(events, n) else 0
  }

  lemma RegularInit(limit: int, duration: int, events: seq<Event>)
    requires RegularRun(limit, duration, events) && events != []
    ensures RegularRun(limit, duration, events[..|events| - 1])
  {
    hide Regular;
  }

  lemma {:induction false} TakenIsPositive(limit: int, duration: int, events: seq<Event>, lo: int, hi: int)
    requires RegularRun(limit, duration, events)
    ensures 0 <= Taken(events, lo, hi)
  {
    hide StepToken;
    if events == [] {
    } else {
      RegularInit(limit, duration, events);
      TakenIsPositive(limit, duration, events[..|events| - 1], lo, hi);
    }
  }

  /** A longer stretch sees no fewer hits. */
  lemma {:induction false} TakenGrows(limit: int, duration: int, events: seq<Event>, lo: int, hi: int, lo': int,
                                      hi': int)
    requires RegularRun(limit, duration, events) && lo' <= lo && hi <= hi'
    ensures Taken(events, lo, hi) <= Taken(events, lo', hi')
  {
    hide StepToken;
    if events == [] {
    } else {
      RegularInit(limit, duration, events);
      TakenGrows(limit, duration, events[..|events| - 1], lo, hi, lo', hi');
    }
  }

  lemma {:induction false} TakenSplits(events: seq<Event>, lo: int, mid: int, hi: int)
    requires lo <= mid <= hi + 1
    ensures Taken(events, lo, hi) == Taken(events, lo, mid - 1) + Taken(events, mid, hi)
  {
    hide StepToken, Admitted;
    if events == [] {
    } else {
      TakenSplits(events[..|events| - 1], lo, mid, hi);
    }
  }

  lemma {:induction false} NoneLater(limit: int, duration: int, events: seq<Event>, lo: int, hi: int)
    requires RegularRun(limit, duration, events) && (events != [] ==> events[|events| - 1].env.now < lo)
    ensures Taken(events, lo, hi) == 0
  {
    hide StepToken, Admitted;
    if events == [] {
    } else {
      RegularInit(limit, duration, events);
      NoneLater(limit, duration, events[..|events| - 1], lo, hi);
    }
  }

  /** When the window that a run leaves open began. */
  function Opened(events: seq<Event>): int {
    var slot := RunTokens(events);
    if slot.TokenHeld? then slot.token.createdAt else 0
  }

  lemma {:induction false} RunInWindow(limit: int, duration: int, events: seq<Event>)
    requires limit >= 0 && duration >= 0 && RegularRun(limit, duration, events)
    ensures InWindow(limit, duration, RunTokens(events))
    ensures events != [] ==>
              && RunTokens(events).TokenHeld?
              && Opened(events) <= events[|events| - 1].env.now <= Opened(events) + duration
  {
    hide StepToken, Regular;
    if events == [] {
    } else {
      var n := |events| - 1;
      RegularInit(limit, duration, events);
      RunInWindow(limit, duration, events[..n]);
      RequestInWindow(limit, duration, RunTokens(events[..n]), events[n]);
    }
  }

  /** The last request of a run either falls into the window that was open, or opens one after its end. */
  lemma LastRequest(limit: int, duration: int, events: seq<Event>)
    requires limit >= 0 && duration >= 0 && RegularRun(limit, duration, events) && |events| > 1
    ensures var n := |events| - 1;
            var rest, now := events[..n], events[n].env.now;
            && (now <= Opened(rest) + duration ==> Opened(events) == Opened(rest))
            && (now > Opened(rest) + duration ==> Opened(events) == now)
            && Opened(rest) <= rest[n - 1].env.now <= Opened(rest) + duration && rest[n - 1].env.now <= now
  {
    hide StepToken, Regular;
    var n := |events| - 1;
    RegularInit(limit, duration, events);
    RunInWindow(limit, duration, events[..n]);
    RequestInWindow(limit, duration, RunTokens(events[..n]), events[n]);
  }

  lemma AdmittedFits(limit: int, duration: int, events: seq<Event>)
    requires limit >= 0 && duration >= 0 && RegularRun(limit, duration, events) && events != []
    ensures var n := |events| - 1;
            var left := Left(limit, RunTokens(events[..n]), events[n].env.now);
            && RunTokens(events).TokenHeld?
            && 0 <= Admitted(events, n) <= left - RunTokens(events).token.remaining
            && (!events[n].r.drain ==> Admitted(events, n) == left - RunTokens(events).token.remaining)
  {
    hide StepToken;
    var n := |events| - 1;
    RegularInit(limit, duration, events);
    RunInWindow(limit, duration, events[..n]);
    RequestInWindow(limit, duration, RunTokens(events[..n]), events[n]);
  }

  ghost predicate NoDrains(events: seq<Event>) {
    forall i :: 0 <= i < |events| ==> !events[i].r.drain
  }

  /** What was admitted since the open window began and what remains make up the limit, but for drains. */
  lemma {:induction false} OpenWindowAdmits(limit: int, duration: int, events: seq<Event>, hi: int)
    requires limit >= 0 && duration >= 0 && RegularRun(limit, duration, events) && events != []
    requires events[|events| - 1].env.now <= hi
    ensures RunTokens(events).TokenHeld?
    ensures Taken(events, Opened(events), hi) + RunTokens(events).token.remaining <= limit
    ensures NoDrains(events) ==> Taken(events, Opened(events), hi) + RunTokens(events).token.remaining == limit
  {
    hide StepToken, Regular, Admitted;
    var n := |events| - 1;
    var rest, now := events[..n], events[n].env.now;
    RegularInit(limit, duration, events);
    RunInWindow(limit, duration, events);
    AdmittedFits(limit, duration, events);
    if n == 0 {
      assert rest == [];
    } else {
      OpenWindowAdmits(limit, duration, rest, hi);
      LastRequest(limit, duration, events);
      RunInWindow(limit, duration, rest);
      if now > Opened(rest) + duration {
        NoneLater(limit, duration, rest, now, hi);
      }
    }
  }

  /** The i-th request opens a window: it is the first, or comes after the end of the one before. */
  ghost predicate Opens(duration: int, events: seq<Event>, i: nat)
    requires i < |events|
  {
    i == 0 || events[i].env.now > Opened(events[..i]) + duration
  }

  lemma OpensAt(limit: int, duration: int, events: seq<Event>, i: nat)
    requires limit >= 0 && duration >= 0 && RegularRun(limit, duration, events) && i < |events|
    requires Opens(duration, events, i)
    ensures RegularRun(limit, duration, events[..i + 1]) && Opened(events[..i + 1]) == events[i].env.now
  {
    hide StepToken, Regular;
    var all := events[..i + 1];
    assert all[..i] == events[..i];
    if i > 0 {
      LastRequest(limit, duration, all);
    } else {
      RunInWindow(limit, duration, all);
      FirstOpens(limit, duration, all);
    }
  }

  lemma FirstOpens(limit: int, duration: int, events: seq<Event>)
    requires limit >= 0 && RegularRun(limit, duration, events) && |events| == 1
    ensures Opened(events) == events[0].env.now
  {
    hide StepToken;
    assert events[..|events| - 1] == [];
    assert RunTokens([]) == NoToken;
    RequestInWindow(limit, duration, NoToken, events[0]);
  }

  /** Until its end a window stays open. */
  lemma {:induction false} StaysOpen(limit: int, duration: int, events: seq<Event>, i: nat)
    requires limit >= 0 && duration >= 0 && RegularRun(limit, duration, events) && i < |events|
    requires Opens(duration, events, i) && events[|events| - 1].env.now <= events[i].env.now + duration
    ensures Opened(events) == events[i].env.now
  {
    hide StepToken, Regular;
    var n := |events| - 1;
    if n == i {
      OpensAt(limit, duration, events, i);
      assert events[..i + 1] == events;
    } else {
      RegularInit(limit, duration, events);
      assert events[..n][..i] == events[..i];
      StaysOpen(limit, duration, events[..n], i);
      LastRequest(limit, duration, events);
    }
  }

  /** A window lasts its duration and admits at most the limit: whenever a request opens one, the hits admitted
      from then through the end of the duration total at most the limit. */
  lemma {:induction false} WindowAdmitsTheLimit(limit: int, duration: int, events: seq<Event>, i: nat)
    requires limit >= 0 && duration >= 0 && RegularRun(limit, duration, events) && i < |events|
    requires Opens(duration, events, i)
    ensures Taken(events, events[i].env.now, events[i].env.now + duration) <= limit
  {
    hide StepToken, Regular, Admitted;
    var n := |events| - 1;
    var start := events[i].env.now;
    if events[n].env.now <= start + duration {
      StaysOpen(limit, duration, events, i);
      OpenWindowAdmits(limit, duration, events, start + duration);
      RunInWindow(limit, duration, events);
    } else {
      RegularInit(limit, duration, events);
      assert i < n;
      assert events[..n][..i] == events[..i];
      WindowAdmitsTheLimit(limit, duration, events[..n], i);
    }
  }

  /** And no less: without drains a request is admitted if and only if its hits and those admitted since the
      window began are within the limit. */
  lemma AdmittedIff(limit: int, duration: int, events: seq<Event>, e: Event)
    requires limit >= 0 && duration >= 0 && RegularRun(limit, duration, events + [e]) && NoDrains(events)
    requires e.r.hits > 0
    ensures var now := e.env.now;
            var start := if events != [] && now <= Opened(events) + duration then Opened(events) else now;
            var a := StepToken(RunTokens(events), e.r, e.env).answer;
            && a.Answer? && a.resetTime == start + duration
            && (a.status == UnderLimit <==> Taken(events, start, now) + e.r.hits <= limit)
            && (a.status == UnderLimit ==> a.remaining == limit - Taken(events, start, now) - e.r.hits)
  {
    hide StepToken, Admitted;
    var all := events + [e];
    assert all[|events|] == e && all[..|events|] == events;
    RegularInit(limit, duration, all);
    RunInWindow(limit, duration, events);
    RequestInWindow(limit, duration, RunTokens(events), e);
    if events != [] {
      assert all[|events| - 1].env.now <= e.env.now;
      if e.env.now <= Opened(events) + duration {
        OpenWindowAdmits(limit, duration, events, e.env.now);
      } else {
        NoneLater(limit, duration, events, e.env.now, e.env.now);
      }
    }
  }

  /** Wherever a stretch of one duration lies, it meets at most two windows. */
  lemma {:induction false} TwoWindows(limit: int, duration: int, events: seq<Event>, lo: int)
    requires limit >= 0 && duration >= 0 && RegularRun(limit, duration, events) && events != []
    ensures Taken(events, lo, lo + duration) <= 2 * limit
    ensures lo <= Opened(events) <= lo + duration ==> Taken(events, lo, Opened(events) - 1) <= limit
  {
    hide StepToken, Regular, Admitted;
    var n := |events| - 1;
    var rest, now, open := events[..n], events[n].env.now, Opened(events);
    RegularInit(limit, duration, events);
    RunInWindow(limit, duration, events);
    if n == 0 {
      assert rest == [];
    } else {
      TwoWindows(limit, duration, rest, lo);
      LastRequest(limit, duration, events);
      RunInWindow(limit, duration, rest);
      EarlierWindow(limit, duration, events, lo);
    }
    if lo <= open <= lo + duration {
      TakenSplits(events, lo, open, lo + duration);
      InOpenWindow(limit, duration, events, open, lo + duration);
    } else if open < lo && now >= lo {
      InOpenWindow(limit, duration, events, lo, lo + duration);
    }
  }

  /** Whatever stretch begins in the open window, at most the limit was admitted in it. */
  lemma InOpenWindow(limit: int, duration: int, events: seq<Event>, lo: int, hi: int)
    requires limit >= 0 && duration >= 0 && RegularRun(limit, duration, events) && events != []
    requires Opened(events) <= lo
    ensures Taken(events, lo, hi) <= limit
  {
    hide StepToken, Regular, Admitted;
    var end := Max(hi, events[|events| - 1].env.now);
    OpenWindowAdmits(limit, duration, events, end);
    RunInWindow(limit, duration, events);
    TakenGrows(limit, duration, events, lo, hi, Opened(events), end);
  }

  lemma EarlierWindow(limit: int, duration: int, events: seq<Event>, lo: int)
    requires limit >= 0 && duration >= 0 && RegularRun(limit, duration, events) && |events| > 1
    requires var rest := events[..|events| - 1];
             lo <= Opened(rest) <= lo + duration ==> Taken(rest, lo, Opened(rest) - 1) <= limit
    ensures lo <= Opened(events) <= lo + duration ==> Taken(events, lo, Opened(events) - 1) <= limit
  {
    hide StepToken, Regular, Admitted;
    var n := |events| - 1;
    var rest, open := events[..n], Opened(events);
    LastRequest(limit, duration, events);
    RegularInit(limit, duration, events);
    if lo <= open <= lo + duration && open != Opened(rest) {
      InOpenWindow(limit, duration, rest, lo, open - 1);
    }
  }

  // ----- Other requests -----

  /** A status request with another limit: what was spent stays spent, and nothing less than nothing is left. */
  lemma LimitChange(t: Token, expireAt: int, r: Request, env: Env)
    requires 0 <= t.remaining && !r.reset && r.hits == 0 && r.duration == t.duration
    ensures var step := ExistingToken(t, expireAt, r, env);
            var spent := t.limit - t.remaining;
            && step.answer.Answer? && step.slot.TokenHeld? && step.slot.expireAt == expireAt
            && step.slot.token.limit == r.limit == step.answer.limit && step.slot.token.createdAt == t.createdAt
            && step.slot.token.remaining == step.answer.remaining
            && step.answer.resetTime == expireAt
            && (r.limit != t.limit ==> step.answer.remaining == if r.limit >= spent then r.limit - spent else 0)
            && (r.limit == t.limit ==> step.answer.remaining == t.remaining)
            && (step.answer.remaining > 0 ==> step.answer.status == UnderLimit)
  {
  }

  /** A status request with another duration moves the end of the window to that duration after its start, or
      to the end of the calendar interval; if that is past, a full window begins now. */
  lemma DurationChange(t: Token, expireAt: int, r: Request, env: Env)
    requires 0 <= t.remaining && !r.reset && r.hits == 0 && r.limit == t.limit && r.duration != t.duration
    requires r.gregorian ==> env.span.Span?
    ensures var step := ExistingToken(t, expireAt, r, env);
            var end := if r.gregorian then env.now + env.span.left else t.createdAt + r.duration;
            && step.answer.Answer? && step.slot.TokenHeld? && step.slot.token.duration == r.duration
            && step.answer.remaining == step.slot.token.remaining && step.answer.resetTime == step.slot.expireAt
            && (end > r.createdAt ==>
                  && step.slot.expireAt == end && step.slot.token.createdAt == t.createdAt
                  && step.slot.token.remaining == t.remaining)
            && (end <= r.createdAt ==>
                  && step.slot.expireAt == r.createdAt + r.duration && step.slot.token.createdAt == r.createdAt
                  && step.slot.token.remaining == t.limit)
  {
  }

  /** Hits on top of either are counted against what it leaves; a refund gives tokens back. */
  lemma HitsAfterChange(t: Token, expireAt: int, r: Request, env: Env)
    requires 0 <= t.remaining && 0 <= r.limit && !r.reset && r.hits != 0
    requires r.gregorian ==> env.span.Span?
    ensures var asked := ExistingToken(t, expireAt, r.(hits := 0), env);
            var step := ExistingToken(t, expireAt, r, env);
            && asked.answer.Answer? && step.answer.Answer? && step.slot.TokenHeld? && asked.slot.TokenHeld?
            && var left := asked.answer.remaining;
            && step.slot.expireAt == asked.slot.expireAt == step.answer.resetTime
            && step.slot.token.(status := UnderLimit, remaining := 0) ==
               asked.slot.token.(status := UnderLimit, remaining := 0)
            && step.answer.limit == r.limit
            && step.answer.status == (if r.hits <= left then UnderLimit else OverLimit)
            && step.answer.remaining == step.slot.token.remaining
            && step.answer.remaining == if r.hits <= left then left - r.hits else if r.drain then 0 else left
  {
  }

  /** A reset forgets the bucket: the answer shows a full one, and the next request opens a window. */
  lemma ResetForgets(t: Token, expireAt: int, r: Request, env: Env, next: Event)
    requires r.reset
    ensures var step := ExistingToken(t, expireAt, r, env);
            && step.answer == Answer(UnderLimit, r.limit, r.limit, 0, 0)
            && StepToken(step.slot, next.r, next.env) == StepToken(NoToken, next.r, next.env)
  {
  }

  /** The first request of a window in calendar time: it ends with the calendar interval. */
  lemma CalendarWindow(r: Request, env: Env)
    requires r.gregorian && env.span.Span?
    ensures var step := NewToken(r, env);
            && step.slot.TokenHeld? && step.slot.expireAt == env.now + env.span.left
            && step.answer.Answer? && step.answer.resetTime == env.now + env.span.left
            && step.answer.remaining == (if r.hits <= r.limit then r.limit - r.hits else r.limit)
            && step.answer.status == if r.hits <= r.limit then UnderLimit else OverLimit
  {
  }

  /** A status request on a bucket with nothing left shows how the last request for tokens ended. */
  lemma EmptyShowsLast(t: Token, expireAt: int, r: Request, q: Request, env: Env)
    requires 0 <= t.remaining && 0 < r.hits && !r.reset && r.limit == t.limit && r.duration == t.duration
    requires q == r.(hits := 0, drain := false)
    ensures var step := ExistingToken(t, expireAt, r, env);
            && step.slot.TokenHeld?
            && var shown := ExistingToken(step.slot.token, step.slot.expireAt, q, env).answer;
            && shown.Answer? && shown.remaining == step.slot.token.remaining
            && shown.status == if t.remaining == 0 then OverLimit else UnderLimit
  {
  }
}
