/**
 What asking for a key's status can change when anything may follow, requests over the burst included:
 a query that creates a key, or that finds a stored debt repaid, always shows; no other ever does.
 */
module LeakyStatus {
  import opened Numbers
  import opened LeakyBucket
  import opened LeakyFixed
  import opened LeakyContinuous
  import opened LeakyExpiry
  import opened LeakyPolling
  import LeakyTolerance

  /** A query finds no key and creates one, or finds a stored debt repaid. */
  ghost predicate Shows(cfg: Config, slot: Slot, now: int)
    requires Positive(cfg)
  {
    Lookup(slot, now, false).Empty? || (InDebt(slot) && 0.0 <= Balance(cfg, slot, now))
  }

  /** Any requests of the configuration, from now on. */
  ghost predicate MayCome(cfg: Config, events: seq<Event>, now: int) {
    SteadyRun(cfg, events) && forall i :: 0 <= i < |events| ==> now <= events[i].env.now
  }

  /** No request, after whatever others, is answered differently. */
  ghost predicate Unseen(cfg: Config, x: Slot, y: Slot, now: int) {
    forall events :: MayCome(cfg, events, now) && events != [] ==> LastAnswer(x, events) == LastAnswer(y, events)
  }

  // ----- A query that does not show -----

  /** The same to every request from now on: one slot, or two that differ only in how the balance is stored. */
  ghost predicate Kin(cfg: Config, x: Slot, y: Slot, now: int)
    requires Positive(cfg)
  {
    && Fits(cfg, x, now) && Fits(cfg, y, now)
    && (Lookup(x, now, false) == Lookup(y, now, false) || (Level(x, y) && Alike(cfg, x, y, now)))
  }

  lemma KinLater(cfg: Config, x: Slot, y: Slot, now: int, later: int)
    requires Positive(cfg) && Kin(cfg, x, y, now) && now <= later
    ensures Kin(cfg, x, y, later)
  {
    hide Balance;
    if Level(x, y) && Alike(cfg, x, y, now) {
      AlikeLater(cfg, x, y, now, later);
    }
  }

  lemma KinStep(cfg: Config, x: Slot, y: Slot, e: Event)
    requires Positive(cfg) && Steady(cfg, e) && Kin(cfg, x, y, e.env.now)
    ensures LeakyStep(EXACT, false, x, e.r, e.env) == LeakyStep(EXACT, false, y, e.r, e.env)
    ensures var after := LeakyStep(EXACT, false, x, e.r, e.env).slot; Kin(cfg, after, after, e.env.now)
  {
    hide LeakyStep, Balance, Steady;
    StepLooksUp(x, e);
    StepLooksUp(y, e);
    StepFits(EXACT, cfg, false, x, e);
    if Lookup(x, e.env.now, false) != Lookup(y, e.env.now, false) {
      LevelSteps(cfg, x, y, e);
    }
  }

  lemma KinQuery(cfg: Config, x: Slot, y: Slot, q: Event)
    requires Positive(cfg) && Steady(cfg, q) && q.r.hits == 0 && Kin(cfg, x, y, q.env.now)
    requires !Shows(cfg, x, q.env.now)
    ensures Kin(cfg, LeakyStep(EXACT, false, x, q.r, q.env).slot, y, q.env.now)
  {
    hide LeakyStep, Balance, Steady;
    BalanceAtMostBurst(cfg, x, q.env.now);
    QueryStores(cfg, x, q);
  }

  lemma MayComeInit(cfg: Config, events: seq<Event>, now: int)
    requires MayCome(cfg, events, now) && events != []
    ensures MayCome(cfg, events[..|events| - 1], now)
  {
    hide Steady;
  }

  lemma {:induction false} KinRun(cfg: Config, x: Slot, y: Slot, now: int, events: seq<Event>)
    requires Positive(cfg) && Kin(cfg, x, y, now) && MayCome(cfg, events, now)
    ensures var last := if events == [] then now else events[|events| - 1].env.now;
            Kin(cfg, RunFrom(EXACT, false, x, events), RunFrom(EXACT, false, y, events), last)
    ensures events != [] ==> LastAnswer(x, events) == LastAnswer(y, events)
  {
    hide LeakyStep, Kin, Steady;
    if events == [] {
    } else {
      var n := |events| - 1;
      var init, e := events[..n], events[n];
      MayComeInit(cfg, events, now);
      KinRun(cfg, x, y, now, init);
      var before := if n == 0 then now else init[n - 1].env.now;
      KinLater(cfg, RunFrom(EXACT, false, x, init), RunFrom(EXACT, false, y, init), before, e.env.now);
      KinStep(cfg, RunFrom(EXACT, false, x, init), RunFrom(EXACT, false, y, init), e);
    }
  }

  lemma HiddenQuery(cfg: Config, slot: Slot, q: Event)
    requires Positive(cfg) && Steady(cfg, q) && q.r.hits == 0 && Fits(cfg, slot, q.env.now)
    requires !Shows(cfg, slot, q.env.now)
    ensures Unseen(cfg, slot, LeakyStep(EXACT, false, slot, q.r, q.env).slot, q.env.now)
  {
    hide LeakyStep, LastAnswer, MayCome, Shows, Steady, Fits;
    var now, asked := q.env.now, LeakyStep(EXACT, false, slot, q.r, q.env).slot;
    KinQuery(cfg, slot, slot, q);
    forall events | MayCome(cfg, events, now) && events != []
      ensures LastAnswer(slot, events) == LastAnswer(asked, events)
    {
      KinRun(cfg, asked, slot, now, events);
    }
  }

  // ----- A query that shows -----

  /** A plain request over the burst. */
  function TooMuch(cfg: Config, now: int): Event {
    PlainAsk(cfg, cfg.burst + 1, now, false)
  }

  /** It empties an unknown key and leaves a known one's balance alone; a stored debt keeps its expiry. */
  lemma TooMuchLeaves(cfg: Config, slot: Slot, now: int)
    requires Positive(cfg) && Fits(cfg, slot, now)
    ensures var e := TooMuch(cfg, now);
            var after := LeakyStep(EXACT, false, slot, e.r, e.env).slot;
            var known := Lookup(slot, now, false).Held?;
            && after.Held? && Fits(cfg, after, now)
            && Balance(cfg, after, now) == (if known then Balance(cfg, slot, now) else 0.0)
            && after.expireAt == if known && InDebt(slot) then slot.expireAt else now + cfg.duration
  {
    hide Balance, Count, ExistingStep, ExtendExpiry;
    var e := TooMuch(cfg, now);
    if Lookup(slot, now, false).Held? {
      BalanceAtMostBurst(cfg, slot, now);
      StepFromLevel(EXACT, cfg, false, slot, e);
      var level := Balance(cfg, slot, now);
      CountCases(EXACT, cfg, level, e, InDebt(slot));
      BalanceNow(cfg, level, now, LeakyStep(EXACT, false, slot, e.r, e.env).slot.expireAt);
    } else {
      BalanceNow(cfg, 0.0, now, now + cfg.duration);
    }
  }

  /** A whole burst is admitted exactly to a full key. */
  lemma WholeBurstIff(cfg: Config, slot: Slot, now: int)
    requires Positive(cfg) && Fits(cfg, slot, now)
    ensures var f := WholeBurst(cfg, now);
            var a := LeakyStep(EXACT, false, slot, f.r, f.env).answer;
            var full := Balance(cfg, Lookup(slot, now, false), now) == cfg.burst as real;
            a.Answer? && a.status == if full then UnderLimit else OverLimit
  {
    hide Balance, LeakyStep;
    var f := WholeBurst(cfg, now);
    RefinesReference(cfg, false, slot, f);
    BalanceAtMostBurst(cfg, Lookup(slot, now, false), now);
  }

  /** After a request over the burst, a whole burst is admitted if the key was known and full. */
  lemma ThenWholeBurst(cfg: Config, slot: Slot, now: int)
    requires Positive(cfg) && Fits(cfg, slot, now) && (InDebt(slot) ==> now <= slot.expireAt)
    ensures var e, f := TooMuch(cfg, now), WholeBurst(cfg, now);
            var a := LeakyStep(EXACT, false, LeakyStep(EXACT, false, slot, e.r, e.env).slot, f.r, f.env).answer;
            var full := Lookup(slot, now, false).Held? && Balance(cfg, slot, now) == cfg.burst as real;
            a.Answer? && a.status == if full then UnderLimit else OverLimit
  {
    hide Balance, LeakyStep, TooMuch, WholeBurst;
    var e := TooMuch(cfg, now);
    TooMuchLeaves(cfg, slot, now);
    WholeBurstIff(cfg, LeakyStep(EXACT, false, slot, e.r, e.env).slot, now);
  }

  lemma TwoMayCome(cfg: Config, a: int, b: int, now: int)
    requires Positive(cfg) && now <= a <= b
    ensures MayCome(cfg, [TooMuch(cfg, a), WholeBurst(cfg, b)], now)
    ensures MayCome(cfg, [TooMuch(cfg, a), TooMuch(cfg, b), WholeBurst(cfg, b)], now)
  {
  }

  lemma LastOfThree(x: Slot, d: Event, e: Event, f: Event)
    ensures LastAnswer(x, [d, e, f]) == LastAnswer(LeakyStep(EXACT, false, x, d.r, d.env).slot, [e, f])
  {
    hide LeakyStep;
    LastOfTwo(LeakyStep(EXACT, false, x, d.r, d.env).slot, e, f);
    assert [d, e, f][..2] == [d, e] && [d, e][..1] == [d] && [d][..0] == [];
    assert RunFrom(EXACT, false, x, []) == x;
    assert RunFrom(EXACT, false, x, [d]) == LeakyStep(EXACT, false, x, d.r, d.env).slot;
  }

  /** A key created by a query is full; the same key created by a request over the burst is empty. */
  lemma CreatingShows(cfg: Config, slot: Slot, q: Event)
    requires Positive(cfg) && Steady(cfg, q) && q.r.hits == 0 && Fits(cfg, slot, q.env.now)
    requires Lookup(slot, q.env.now, false).Empty?
    ensures var asked := LeakyStep(EXACT, false, slot, q.r, q.env).slot;
            var events := [TooMuch(cfg, q.env.now), WholeBurst(cfg, q.env.now)];
            MayCome(cfg, events, q.env.now) && LastAnswer(slot, events) != LastAnswer(asked, events)
  {
    hide Balance, LeakyStep, TooMuch, WholeBurst, LastAnswer, MayCome;
    var now, asked := q.env.now, LeakyStep(EXACT, false, slot, q.r, q.env).slot;
    StepLooksUp(slot, q);
    QueryStores(cfg, Empty, q);
    EmptyIsFull(cfg, now);
    TwoMayCome(cfg, now, now, now);
    LastOfTwo(slot, TooMuch(cfg, now), WholeBurst(cfg, now));
    LastOfTwo(asked, TooMuch(cfg, now), WholeBurst(cfg, now));
    ThenWholeBurst(cfg, Lookup(slot, now, false), now);
    StepLooksUp(slot, TooMuch(cfg, now));
    TooMuchNow(cfg, now);
    ThenWholeBurst(cfg, asked, now);
  }

  lemma TooMuchNow(cfg: Config, now: int)
    ensures TooMuch(cfg, now).env.now == now
  {
  }

  /** At the expiry a debt left, a request over the burst moves the expiry of the key that was asked, and
      not of the other. */
  lemma AtExpiry(cfg: Config, slot: Slot, q: Event)
    requires Positive(cfg) && Steady(cfg, q) && q.r.hits == 0 && Fits(cfg, slot, q.env.now)
    requires Fresh(slot, q.env.now) && InDebt(slot) && 0.0 <= Balance(cfg, slot, q.env.now)
    ensures var e, asked := TooMuch(cfg, slot.expireAt), LeakyStep(EXACT, false, slot, q.r, q.env).slot;
            var x := LeakyStep(EXACT, false, slot, e.r, e.env).slot;
            var y := LeakyStep(EXACT, false, asked, e.r, e.env).slot;
            && Fits(cfg, x, slot.expireAt + 1) && Lookup(x, slot.expireAt + 1, false).Empty?
            && Fits(cfg, y, slot.expireAt + 1) && Lookup(y, slot.expireAt + 1, false) == y && y.Held?
            && !InDebt(y)
  {
    hide Balance, LeakyStep, TooMuch;
    var now, at, asked := q.env.now, slot.expireAt, LeakyStep(EXACT, false, slot, q.r, q.env).slot;
    QueryStores(cfg, slot, q);
    AlikeLater(cfg, slot, asked, now, at);
    TooMuchLeaves(cfg, slot, at);
    TooMuchLeaves(cfg, asked, at);
    TooMuchKeepsDebtless(cfg, asked, at);
  }

  lemma TooMuchKeepsDebtless(cfg: Config, slot: Slot, now: int)
    requires Positive(cfg) && Fits(cfg, slot, now) && slot.Held? && Fresh(slot, now) && !InDebt(slot)
    ensures var e := TooMuch(cfg, now); !InDebt(LeakyStep(EXACT, false, slot, e.r, e.env).slot)
  {
    hide Balance, Count, LeakyStep, ExtendExpiry;
    BalanceAtMostBurst(cfg, slot, now);
    StepFromLevel(EXACT, cfg, false, slot, TooMuch(cfg, now));
    CountCases(EXACT, cfg, Balance(cfg, slot, now), TooMuch(cfg, now), false);
  }

  /** A millisecond after that expiry the other is unknown, and so full; the key that was asked holds what
      it had. If that is less, a whole burst tells them apart, and if not, another request over the burst
      and then the whole burst. */
  lemma RepaidShows(cfg: Config, slot: Slot, q: Event)
    requires Positive(cfg) && Steady(cfg, q) && q.r.hits == 0 && Fits(cfg, slot, q.env.now)
    requires Fresh(slot, q.env.now) && InDebt(slot) && 0.0 <= Balance(cfg, slot, q.env.now)
    ensures !Unseen(cfg, slot, LeakyStep(EXACT, false, slot, q.r, q.env).slot, q.env.now)
  {
    hide Balance, LeakyStep, TooMuch, WholeBurst, LastAnswer, MayCome, Steady, Fits;
    var asked, at := LeakyStep(EXACT, false, slot, q.r, q.env).slot, slot.expireAt;
    var d, e, f := TooMuch(cfg, at), TooMuch(cfg, at + 1), WholeBurst(cfg, at + 1);
    var x, y := LeakyStep(EXACT, false, slot, d.r, d.env).slot, LeakyStep(EXACT, false, asked, d.r, d.env).slot;
    AtExpiry(cfg, slot, q);
    TwoMayCome(cfg, at, at + 1, q.env.now);
    if Balance(cfg, y, at + 1) == cfg.burst as real {
      LastOfThree(slot, d, e, f);
      LastOfThree(asked, d, e, f);
      LastOfTwo(x, e, f);
      LastOfTwo(y, e, f);
      ThenWholeBurstOnUnknown(cfg, x, at + 1);
      ThenWholeBurst(cfg, y, at + 1);
      assert LastAnswer(slot, [d, e, f]) != LastAnswer(asked, [d, e, f]);
    } else {
      LastOfTwo(slot, d, f);
      LastOfTwo(asked, d, f);
      EmptyIsFull(cfg, at + 1);
      WholeBurstIff(cfg, x, at + 1);
      WholeBurstIff(cfg, y, at + 1);
      assert LastAnswer(slot, [d, f]) != LastAnswer(asked, [d, f]);
    }
  }

  lemma ThenWholeBurstOnUnknown(cfg: Config, slot: Slot, now: int)
    requires Positive(cfg) && Lookup(slot, now, false).Empty?
    ensures var e, f := TooMuch(cfg, now), WholeBurst(cfg, now);
            var a := LeakyStep(EXACT, false, LeakyStep(EXACT, false, slot, e.r, e.env).slot, f.r, f.env).answer;
            a.Answer? && a.status == OverLimit
  {
    hide Balance, LeakyStep, TooMuch, WholeBurst;
    TooMuchNow(cfg, now);
    StepLooksUp(slot, TooMuch(cfg, now));
    ThenWholeBurst(cfg, Empty, now);
  }

  /** A query changes some later answer if and only if it creates the key or finds a stored debt repaid. */
  lemma QueryIsSeenIff(cfg: Config, slot: Slot, q: Event)
    requires Positive(cfg) && Steady(cfg, q) && q.r.hits == 0 && Fits(cfg, slot, q.env.now)
    ensures Unseen(cfg, slot, LeakyStep(EXACT, false, slot, q.r, q.env).slot, q.env.now) <==>
            !Shows(cfg, slot, q.env.now)
  {
    hide LeakyStep, LastAnswer, MayCome, Steady, Fits, Balance;
    if Lookup(slot, q.env.now, false).Empty? {
      CreatingShows(cfg, slot, q);
    } else if Shows(cfg, slot, q.env.now) {
      RepaidShows(cfg, slot, q);
    } else {
      HiddenQuery(cfg, slot, q);
    }
  }

  /** Asked for its status first, an unknown key of ten a minute admits ten hits after eleven were refused;
      otherwise the eleven empty it, and the ten are refused. */
  lemma QueryBeforeTooMuch()
    ensures var query, much, burst := PlainAsk(TEN_A_MINUTE, 0, 0, false), TooMuch(TEN_A_MINUTE, 0),
                                      WholeBurst(TEN_A_MINUTE, 0);
            var a, a' := AnswerAt(EXACT, false, [much, burst], 1), AnswerAt(EXACT, false, [query, much, burst], 2);
            a.Answer? && a.status == OverLimit && a'.Answer? && a'.status == UnderLimit
  {
    hide LeakyStep, TooMuch, WholeBurst, Balance;
    var query, much, burst := PlainAsk(TEN_A_MINUTE, 0, 0, false), TooMuch(TEN_A_MINUTE, 0),
                              WholeBurst(TEN_A_MINUTE, 0);
    var asked := LeakyStep(EXACT, false, Empty, query.r, query.env).slot;
    QueryStores(TEN_A_MINUTE, Empty, query);
    EmptyIsFull(TEN_A_MINUTE, 0);
    ThenWholeBurst(TEN_A_MINUTE, Empty, 0);
    ThenWholeBurst(TEN_A_MINUTE, asked, 0);
    RunExtends(EXACT, false, [], much);
    RunExtends(EXACT, false, [], query);
    RunExtends(EXACT, false, [query], much);
    assert [] + [much] == [much] == [much, burst][..1] && [] + [query] == [query];
    assert [query] + [much] == [query, much, burst][..2];
  }

  // ----- Runs -----

  /** Queries left out of a run, none of which shows. */
  ghost predicate HiddenDrops(cfg: Config, events: seq<Event>, drop: seq<bool>)
    requires Positive(cfg)
  {
    && |drop| == |events| && SteadyRun(cfg, events)
    && forall n :: 0 <= n < |events| && drop[n] ==>
         events[n].r.hits == 0 && !Shows(cfg, Run(EXACT, false, events[..n]), events[n].env.now)
  }

  lemma HiddenInit(cfg: Config, events: seq<Event>, drop: seq<bool>)
    requires Positive(cfg) && HiddenDrops(cfg, events, drop) && events != []
    ensures HiddenDrops(cfg, events[..|events| - 1], drop[..|events| - 1])
  {
    hide Shows, Steady;
    var n := |events| - 1;
    forall m | 0 <= m < n && drop[..n][m]
      ensures events[..n][m].r.hits == 0
      ensures !Shows(cfg, Run(EXACT, false, events[..n][..m]), events[..n][m].env.now)
    {
      assert events[..n][..m] == events[..m];
    }
  }

  lemma {:induction false} ThinnedRunIsKin(cfg: Config, events: seq<Event>, drop: seq<bool>, now: int)
    requires Positive(cfg) && HiddenDrops(cfg, events, drop)
    requires events != [] ==> events[|events| - 1].env.now <= now
    ensures Kin(cfg, Run(EXACT, false, events), Run(EXACT, false, Thin(events, drop)), now)
  {
    hide LeakyStep, Steady, Shows;
    if events == [] {
    } else {
      hide Kin;
      var n := |events| - 1;
      var e, init, marks := events[n], events[..n], drop[..n];
      HiddenInit(cfg, events, drop);
      ThinnedRunIsKin(cfg, init, marks, e.env.now);
      var full, thin := Run(EXACT, false, init), Run(EXACT, false, Thin(init, marks));
      assert init + [e] == events;
      RunExtends(EXACT, false, init, e);
      if drop[n] {
        assert Thin(events, drop) == Thin(init, marks);
        KinQuery(cfg, full, thin, e);
      } else {
        RunExtends(EXACT, false, Thin(init, marks), e);
        KinStep(cfg, full, thin, e);
      }
      KinLater(cfg, Run(EXACT, false, events), Run(EXACT, false, Thin(events, drop)), e.env.now, now);
    }
  }

  /** Polling changes no answer of any run, whatever its burst and its requests, as long as no query left
      out creates the key or finds a stored debt repaid. */
  lemma HiddenPollingChangesNothing(cfg: Config, events: seq<Event>, drop: seq<bool>, e: Event)
    requires Positive(cfg) && |drop| == |events| && HiddenDrops(cfg, events, drop) && SteadyRun(cfg, events + [e])
    ensures LeakyStep(EXACT, false, Run(EXACT, false, events), e.r, e.env).answer ==
            LeakyStep(EXACT, false, Run(EXACT, false, Thin(events, drop)), e.r, e.env).answer
  {
    hide LeakyStep, Steady, HiddenDrops, Kin;
    var all := events + [e];
    assert all[|events|] == e;
    assert events != [] ==> all[|events| - 1] == events[|events| - 1];
    ThinnedRunIsKin(cfg, events, drop, e.env.now);
    KinStep(cfg, Run(EXACT, false, events), Run(EXACT, false, Thin(events, drop)), e);
  }

  /** The same with the code's tolerances, for a limit under a million in under a billion milliseconds. */
  lemma CodeHiddenPolling(cfg: Config, events: seq<Event>, drop: seq<bool>, e: Event)
    requires Positive(cfg) && |drop| == |events| && HiddenDrops(cfg, events, drop) && SteadyRun(cfg, events + [e])
    requires cfg.duration < 1_000_000_000 && cfg.limit < 1_000_000
    ensures AnswerAt(CODE_TOLERANCE, false, events + [e], |events|) ==
            AnswerAt(CODE_TOLERANCE, false, Thin(events, drop) + [e], |Thin(events, drop)|)
  {
    hide LeakyStep, Steady, HiddenDrops;
    var thin := Thin(events, drop);
    ThinIsSteady(cfg, events, drop, e);
    LeakyTolerance.CodeIsExact(cfg, false, events + [e], |events|);
    LeakyTolerance.CodeIsExact(cfg, false, thin + [e], |thin|);
    assert (events + [e])[..|events|] == events && (thin + [e])[..|thin|] == thin;
    HiddenPollingChangesNothing(cfg, events, drop, e);
  }

  /** After a run, a query is seen by no request of the code's that may come: with it and without it, any
      more requests end in the same answer. */
  ghost predicate CodeUnseen(cfg: Config, events: seq<Event>, q: Event) {
    forall more :: MayCome(cfg, more, q.env.now) && more != [] ==> SameLast(CODE_TOLERANCE, events, q, more)
  }

  ghost predicate SameLast(tol: Tolerance, events: seq<Event>, q: Event, more: seq<Event>)
    requires more != []
  {
    AnswerAt(tol, false, events + more, |events + more| - 1) ==
    AnswerAt(tol, false, (events + [q]) + more, |(events + [q]) + more| - 1)
  }

  lemma LastAnswerOfRun(events: seq<Event>, more: seq<Event>)
    requires more != []
    ensures AnswerAt(EXACT, false, events + more, |events + more| - 1) ==
            LastAnswer(Run(EXACT, false, events), more)
  {
    hide LeakyStep, Run, RunFrom;
    var n := |more| - 1;
    assert (events + more)[..|events + more| - 1] == events + more[..n];
    RunFromPart(EXACT, false, Empty, events, more[..n]);
    RunFromEmpty(EXACT, false, events);
    RunFromEmpty(EXACT, false, events + more[..n]);
  }

  lemma SteadyParts(cfg: Config, events: seq<Event>, q: Event, more: seq<Event>)
    requires SteadyRun(cfg, events + [q]) && MayCome(cfg, more, q.env.now)
    ensures SteadyRun(cfg, events + more) && SteadyRun(cfg, (events + [q]) + more)
  {
    hide Steady;
    var all := events + [q];
    assert all[|events|] == q;
    assert forall i :: 0 <= i < |events| ==> all[i] == events[i] && all[i].env.now <= q.env.now;
  }

  lemma SameLastIff(cfg: Config, events: seq<Event>, q: Event, more: seq<Event>)
    requires Positive(cfg) && SteadyRun(cfg, events + [q]) && MayCome(cfg, more, q.env.now) && more != []
    requires cfg.duration < 1_000_000_000 && cfg.limit < 1_000_000
    ensures var slot := Run(EXACT, false, events);
            SameLast(CODE_TOLERANCE, events, q, more) <==>
            LastAnswer(slot, more) == LastAnswer(LeakyStep(EXACT, false, slot, q.r, q.env).slot, more)
  {
    hide LeakyStep, Run, LastAnswer, MayCome, SteadyRun, AnswerAt;
    SteadyParts(cfg, events, q, more);
    LeakyTolerance.CodeIsExact(cfg, false, events + more, |events + more| - 1);
    LeakyTolerance.CodeIsExact(cfg, false, (events + [q]) + more, |(events + [q]) + more| - 1);
    LastAnswerOfRun(events, more);
    LastAnswerOfRun(events + [q], more);
    RunExtends(EXACT, false, events, q);
  }

  /** The code as it is: for a limit under a million in under a billion milliseconds, a query changes some
      later answer of a run if and only if it creates the key or finds a stored debt repaid. */
  lemma CodeQueryIsSeenIff(cfg: Config, events: seq<Event>, q: Event)
    requires Positive(cfg) && SteadyRun(cfg, events + [q]) && q.r.hits == 0
    requires cfg.duration < 1_000_000_000 && cfg.limit < 1_000_000
    ensures CodeUnseen(cfg, events, q) <==> !Shows(cfg, Run(CODE_TOLERANCE, false, events), q.env.now)
  {
    hide LeakyStep, Run, LastAnswer, MayCome, Shows, SameLast, Steady, Fits;
    var slot := Run(EXACT, false, events);
    LastIsSteady(cfg, events, q);
    SteadyInit(cfg, events, q);
    LeakyTolerance.CodeRunIsExact(cfg, false, events, q.env.now);
    QueryIsSeenIff(cfg, slot, q);
    forall more | MayCome(cfg, more, q.env.now) && more != []
      ensures SameLast(CODE_TOLERANCE, events, q, more) <==>
              LastAnswer(slot, more) == LastAnswer(LeakyStep(EXACT, false, slot, q.r, q.env).slot, more)
    {
      SameLastIff(cfg, events, q, more);
    }
  }

  lemma SteadyInit(cfg: Config, events: seq<Event>, e: Event)
    requires SteadyRun(cfg, events + [e])
    ensures SteadyRun(cfg, events)
  {
    hide Steady;
    var all := events + [e];
    assert forall i :: 0 <= i < |events| ==> all[i] == events[i];
  }
}
