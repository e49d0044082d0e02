/**
 The same for token buckets: in a pool with room every token bucket key is served as if it were alone, so a
 window of the service lasts its duration and admits its limit, whatever other keys get.
 */
module EveryToken {
  import opened LeakyBucket
  import opened TokenBucket
  import opened TokenWindow
  import opened Recency
  import opened Serving
  import opened Workers
  import opened Sharding
  import EveryKey
  import WriteThrough

  predicate IsToken(cmd: Command) {
    cmd.GetRateLimit? && cmd.call.algorithm == TokenAlgorithm
  }

  function TokenSlotOf(found: Option<Item>): TokenSlot {
    if found.Some? && found.value.value.TokenValue? then TokenHeld(found.value.value.token, found.value.expireAt)
    else NoToken
  }

  predicate PlainToken(found: Option<Item>, key: string) {
    found.Some? ==> found.value.value.TokenValue? && found.value.invalidAt == 0 && found.value.key == key
  }

  lemma GotToken(items: seq<Item>, key: string, now: int)
    requires PlainToken(Find(items, key), key)
    ensures var got := Got(items, key, now).item;
            PlainToken(got, key) && TokenSlotOf(got) == TokenLookup(TokenSlotOf(Find(items, key)), now)
  {
    hide Without;
  }

  /** A token call is one step of its bucket, and writes what the step leaves. */
  lemma ServedIsTokenStep(tol: Tolerance, found: Option<Item>, call: Call, env: Env)
    requires call.algorithm == TokenAlgorithm && PlainToken(found, call.key)
    requires found.Some? ==> env.now <= found.value.expireAt
    ensures var served, step := Serve(tol, found, call, env), StepToken(TokenSlotOf(found), call.r, env);
            && served.answer == step.answer
            && (served.effect.Leave? ==> step.slot.NoToken? && found.None?)
            && (served.effect.Erase? ==> step.slot.NoToken?)
            && (Writes(served.effect) ==>
                  PlainToken(Some(served.effect.item), call.key) && TokenSlotOf(Some(served.effect.item)) == step.slot)
  {
    hide NewToken, Relimited, Retimed, RetimedExpiry, TakeTokens;
    if found.Some? && call.r.reset {
      WriteThrough.ResetErases(tol, found, call, env);
    } else {
      WriteThrough.TokenServed(tol, found, call, env);
    }
  }

  /** Serving a token call, cache and all, is one step of its key. */
  lemma TokenCallIsStep(tol: Tolerance, items: seq<Item>, cmd: Command)
    requires IsToken(cmd) && PlainToken(Find(items, KeyOf(cmd)), KeyOf(cmd))
    ensures var done := Execute(tol, 0, Worker(items, None), cmd);
            var step := StepToken(TokenSlotOf(Find(items, KeyOf(cmd))), cmd.call.r, cmd.env);
            var after := Find(done.worker.items, KeyOf(cmd));
            && done.worker.store == None && done.outcome == Limited(step.answer)
            && PlainToken(after, KeyOf(cmd)) && TokenSlotOf(after) == step.slot
  {
    hide Got, Added, NewToken, ExistingToken, Serve;
    var call, env := cmd.call, cmd.env;
    var got := Got(items, call.key, env.now);
    GotToken(items, call.key, env.now);
    FindGot(items, call.key, env.now, call.key);
    ServedIsTokenStep(tol, got.item, call, env);
    ServedKey(tol, got.item, call, env);
    ApplyFinds(got.items, call.key, Serve(tol, got.item, call, env).effect, call.key);
  }

  // ----- One key's part of a run -----

  function TokenEvents(cmds: seq<Command>, key: string): seq<Event> {
    if cmds == [] then []
    else
      var last := cmds[|cmds| - 1];
      TokenEvents(cmds[..|cmds| - 1], key) +
      if IsToken(last) && KeyOf(last) == key then [Event(last.call.r, last.env)] else []
  }

  /** What a key was asked and answered. */
  function TokenLog(log: Log, key: string): seq<(Event, Answer)> {
    if log == [] then []
    else
      var (cmd, outcome) := log[|log| - 1];
      TokenLog(log[..|log| - 1], key) +
      if IsToken(cmd) && KeyOf(cmd) == key && outcome.Limited?
      then [(Event(cmd.call.r, cmd.env), outcome.answer)]
      else []
  }

  /** The same for a key alone. */
  function ToldTokens(events: seq<Event>): seq<(Event, Answer)> {
    if events == [] then []
    else
      var init, last := events[..|events| - 1], events[|events| - 1];
      ToldTokens(init) + [(last, StepToken(RunTokens(init), last.r, last.env).answer)]
  }

  /** The key is called as a token bucket; what other keys get is any command. */
  predicate ServesToken(cmd: Command, key: string) {
    WellFormed(cmd) && (KeyOf(cmd) == key ==> IsToken(cmd))
  }

  lemma EventsExtend(cmds: seq<Command>, cmd: Command, log: Log, outcome: Outcome, key: string)
    requires KeyOf(cmd) == key ==> IsToken(cmd) && outcome.Limited?
    ensures TokenEvents(cmds + [cmd], key) ==
            if KeyOf(cmd) == key then TokenEvents(cmds, key) + [Event(cmd.call.r, cmd.env)] else TokenEvents(cmds, key)
    ensures TokenLog(log + [(cmd, outcome)], key) ==
            if KeyOf(cmd) == key then TokenLog(log, key) + [(Event(cmd.call.r, cmd.env), outcome.answer)]
            else TokenLog(log, key)
  {
    assert (cmds + [cmd])[..|cmds|] == cmds;
    assert (log + [(cmd, outcome)])[..|log|] == log;
  }

  lemma ToldExtend(events: seq<Event>, e: Event)
    ensures var step := StepToken(RunTokens(events), e.r, e.env);
            && ToldTokens(events + [e]) == ToldTokens(events) + [(e, step.answer)]
            && RunTokens(events + [e]) == step.slot
  {
    hide StepToken;
    assert (events + [e])[..|events|] == events;
  }

  ghost predicate FollowsTokens(w: Worker, log: Log, cmds: seq<Command>, key: string) {
    && w.store == None && PlainToken(Find(w.items, key), key)
    && TokenSlotOf(Find(w.items, key)) == RunTokens(TokenEvents(cmds, key))
    && TokenLog(log, key) == ToldTokens(TokenEvents(cmds, key))
  }

  lemma CommandFollowsTokens(tol: Tolerance, w: Worker, log: Log, cmds: seq<Command>, cmd: Command, key: string)
    requires FollowsTokens(w, log, cmds, key) && ServesToken(cmd, key)
    ensures var now := Execute(tol, 0, w, cmd);
            FollowsTokens(now.worker, log + [(cmd, now.outcome)], cmds + [cmd], key)
  {
    hide Execute, StepToken, RunTokens, ToldTokens, TokenLog, TokenEvents, TokenSlotOf;
    assert w == Worker(w.items, None);
    if KeyOf(cmd) == key {
      TokenCallIsStep(tol, w.items, cmd);
      ToldExtend(TokenEvents(cmds, key), Event(cmd.call.r, cmd.env));
    } else {
      OthersFind(tol, w, cmd, key);
      EveryKey.NoStoreStays(tol, w.items, cmd);
    }
    EventsExtend(cmds, cmd, log, Execute(tol, 0, w, cmd).outcome, key);
  }

  lemma {:induction false} TokensRunAlone(tol: Tolerance, items: seq<Item>, cmds: seq<Command>, key: string)
    requires Find(items, key) == None && forall i :: 0 <= i < |cmds| ==> ServesToken(cmds[i], key)
    ensures var r := RunAlone(tol, 0, Worker(items, None), cmds); FollowsTokens(r.0, r.1, cmds, key)
  {
    if cmds == [] {
    } else {
      hide RunAlone, FollowsTokens, ServesToken, Execute, Find;
      var init, last := cmds[..|cmds| - 1], cmds[|cmds| - 1];
      assert cmds == init + [last];
      TokensRunAlone(tol, items, init, key);
      var before := RunAlone(tol, 0, Worker(items, None), init);
      RunAloneExtends(tol, 0, Worker(items, None), init, last);
      CommandFollowsTokens(tol, before.0, before.1, init, last, key);
    }
  }

  /** In a pool with room for every worker's keys and no store, however the keys' commands interleave, a token
      bucket key it does not know yet is answered as it would be alone. */
  lemma PoolServesTokensAlone(p: Config, keys: set<string>, s: State, cmds: seq<Command>, key: string)
    requires EveryKey.Ready(p, keys, s, key) && Find(s.caches[p.route(key)], key) == None
    requires forall i :: 0 <= i < |cmds| ==> ServesToken(cmds[i], key) && KeyOf(cmds[i]) in keys
    ensures TokenLog(RunPool(p, s, cmds).1, key) == ToldTokens(TokenEvents(cmds, key))
  {
    hide RunPool, RunAlone, TokenLog, ToldTokens, TokenEvents, IsToken, Spacious, Tidy, Merged, Find, EveryKey.Plain;
    var one := Merged(s.caches);
    HousedRefines(p, keys, s);
    ShardingRefinesOneCache(p, 0, keys, s, Worker(one, None), cmds);
    MergedFinds(p, keys, s.caches, key);
    TokensRunAlone(p.tol, one, cmds, key);
  }

  // ----- Windows of the service -----

  /** The hits a key was told were admitted, from one moment through another. */
  function TakenTold(told: seq<(Event, Answer)>, lo: int, hi: int): int {
    if told == [] then 0
    else
      var (e, a) := told[|told| - 1];
      TakenTold(told[..|told| - 1], lo, hi) +
      if lo <= e.env.now <= hi && a.Answer? && a.status == UnderLimit then e.r.hits else 0
  }

  lemma {:induction false} TakenIsTold(events: seq<Event>, lo: int, hi: int)
    ensures TakenTold(ToldTokens(events), lo, hi) == Taken(events, lo, hi)
  {
    hide StepToken;
    if events == [] {
    } else {
      var init := events[..|events| - 1];
      TakenIsTold(init, lo, hi);
      var told := ToldTokens(events);
      assert told[..|told| - 1] == ToldTokens(init);
    }
  }

  /** The service keeps its windows: whatever it serves for other keys, the hits it admits for a key in a window
      total at most the limit, and in any stretch of one duration at most twice that. */
  lemma ServiceKeepsWindows(p: Config, keys: set<string>, s: State, cmds: seq<Command>, key: string, limit: int,
                            duration: int, i: nat, lo: int)
    requires EveryKey.Ready(p, keys, s, key) && Find(s.caches[p.route(key)], key) == None
    requires forall n :: 0 <= n < |cmds| ==> ServesToken(cmds[n], key) && KeyOf(cmds[n]) in keys
    requires limit >= 0 && duration >= 0 && RegularRun(limit, duration, TokenEvents(cmds, key))
    requires i < |TokenEvents(cmds, key)| && Opens(duration, TokenEvents(cmds, key), i)
    ensures var told, start := TokenLog(RunPool(p, s, cmds).1, key), TokenEvents(cmds, key)[i].env.now;
            TakenTold(told, start, start + duration) <= limit && TakenTold(told, lo, lo + duration) <= 2 * limit
  {
    hide RunPool, TokenLog, ToldTokens, TokenEvents, EveryKey.Ready, ServesToken, RegularRun, Opens, Taken, TakenTold,
         Find;
    var events := TokenEvents(cmds, key);
    var start := events[i].env.now;
    PoolServesTokensAlone(p, keys, s, cmds, key);
    TakenIsTold(events, start, start + duration);
    TakenIsTold(events, lo, lo + duration);
    WindowAdmitsTheLimit(limit, duration, events, i);
    TwoWindows(limit, duration, events, lo);
  }
}
