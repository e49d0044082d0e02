/**
 From one key to a whole pool: while nothing is evicted, or with a write-through store whatever is evicted
 or restarted, every leaky bucket key of a pool is served as if it were alone, so what holds of one key's
 run holds of every key in the pool.
 */
module EveryKey {
  import opened LeakyBucket
  import opened Recency
  import opened Serving
  import opened Workers
  import opened Sharding
  import LeakyFixed
  import LeakyConformance
  import LeakyTolerance

  predicate IsLeaky(cmd: Command) {
    cmd.GetRateLimit? && cmd.call.algorithm == LeakyAlgorithm
  }

  function SlotOf(found: Option<Item>): Slot {
    if found.Some? && found.value.value.LeakyValue? then Held(found.value.value.bucket, found.value.expireAt) else Empty
  }

  predicate Plain(found: Option<Item>, key: string) {
    found.Some? ==> found.value.value.LeakyValue? && found.value.invalidAt == 0 && found.value.key == key
  }

  /** A lookup in the cache is the lookup of one key's slot. */
  lemma GotSlot(items: seq<Item>, key: string, now: int)
    requires Plain(Find(items, key), key)
    ensures var got := Got(items, key, now).item;
            Plain(got, key) && SlotOf(got) == Lookup(SlotOf(Find(items, key)), now, false)
  {
    hide Without;
  }

  /** Serving a call, cache and all, is one step of its key. */
  lemma LeakyCallIsStep(tol: Tolerance, items: seq<Item>, cmd: Command)
    requires IsLeaky(cmd) && Plain(Find(items, KeyOf(cmd)), KeyOf(cmd))
    ensures var done := Execute(tol, 0, Worker(items, None), cmd);
            var step := LeakyStep(tol, false, SlotOf(Find(items, KeyOf(cmd))), cmd.call.r, cmd.env);
            var after := Find(done.worker.items, KeyOf(cmd));
            && done.worker.store == None && done.outcome == Limited(step.answer)
            && Plain(after, KeyOf(cmd)) && SlotOf(after) == step.slot
  {
    hide Got, Added, NewStep, ExistingStep;
    var call, env := cmd.call, cmd.env;
    var got := Got(items, call.key, env.now);
    GotSlot(items, call.key, env.now);
    FindGot(items, call.key, env.now, call.key);
    ErrorsHoldNothing(call.r, env);
    if got.item.Some? {
      ErrorsKeep(tol, got.item.value.value.bucket, got.item.value.expireAt, call.r, env);
    }
    ServedKey(tol, got.item, call, env);
    ApplyFinds(got.items, call.key, Serve(tol, got.item, call, env).effect, call.key);
  }

  lemma ErrorsKeep(tol: Tolerance, b: Bucket, expireAt: int, r: Request, env: Env)
    ensures var step := ExistingStep(tol, b, expireAt, r, env);
            step.slot.Held? && (step.answer.CalendarError? ==> step.slot == Held(b, expireAt))
  {
    hide NewExpiry, Settled, SettledRate;
  }

  // ----- One key's part of a run -----

  function KeyEvents(cmds: seq<Command>, key: string): seq<Event> {
    if cmds == [] then []
    else
      var last := cmds[|cmds| - 1];
      KeyEvents(cmds[..|cmds| - 1], key) +
      if IsLeaky(last) && KeyOf(last) == key then [Event(last.call.r, last.env)] else []
  }

  /** What a key was asked and answered. */
  function KeyLog(log: Log, key: string): seq<(Event, Answer)> {
    if log == [] then []
    else
      var (cmd, outcome) := log[|log| - 1];
      KeyLog(log[..|log| - 1], key) +
      if IsLeaky(cmd) && KeyOf(cmd) == key && outcome.Limited?
      then [(Event(cmd.call.r, cmd.env), outcome.answer)]
      else []
  }

  /** The same for a key alone, from what it holds. */
  function Told(tol: Tolerance, slot: Slot, events: seq<Event>): seq<(Event, Answer)> {
    if events == [] then []
    else
      var init, last := events[..|events| - 1], events[|events| - 1];
      Told(tol, slot, init) + [(last, LeakyStep(tol, false, RunFrom(tol, false, slot, init), last.r, last.env).answer)]
  }

  lemma ToldExtends(tol: Tolerance, slot: Slot, events: seq<Event>, e: Event)
    ensures var step := LeakyStep(tol, false, RunFrom(tol, false, slot, events), e.r, e.env);
            && Told(tol, slot, events + [e]) == Told(tol, slot, events) + [(e, step.answer)]
            && RunFrom(tol, false, slot, events + [e]) == step.slot
  {
    hide LeakyStep;
    assert (events + [e])[..|events|] == events;
  }

  lemma KeyLogExtends(log: Log, cmd: Command, outcome: Outcome, key: string)
    requires KeyOf(cmd) == key ==> IsLeaky(cmd) && outcome.Limited?
    ensures KeyLog(log + [(cmd, outcome)], key) ==
            if KeyOf(cmd) == key
            then KeyLog(log, key) + [(Event(cmd.call.r, cmd.env), outcome.answer)]
            else KeyLog(log, key)
  {
    assert (log + [(cmd, outcome)])[..|log|] == log;
  }

  lemma KeyEventsExtends(cmds: seq<Command>, cmd: Command, key: string)
    requires KeyOf(cmd) == key ==> IsLeaky(cmd)
    ensures KeyEvents(cmds + [cmd], key) ==
            if KeyOf(cmd) == key then KeyEvents(cmds, key) + [Event(cmd.call.r, cmd.env)] else KeyEvents(cmds, key)
  {
    assert (cmds + [cmd])[..|cmds|] == cmds;
  }

  /** What one worker's cache holds and has answered for a key is that key's own run. */
  ghost predicate FollowsRun(tol: Tolerance, w: Worker, log: Log, slot: Slot, cmds: seq<Command>, key: string) {
    && w.store == None && Plain(Find(w.items, key), key)
    && SlotOf(Find(w.items, key)) == RunFrom(tol, false, slot, KeyEvents(cmds, key))
    && KeyLog(log, key) == Told(tol, slot, KeyEvents(cmds, key))
  }

  /** The key is called as a leaky bucket; what other keys get is any command. */
  predicate Serves(cmd: Command, key: string) {
    WellFormed(cmd) && (KeyOf(cmd) == key ==> IsLeaky(cmd))
  }

  lemma CommandFollowsRun(tol: Tolerance, w: Worker, log: Log, slot: Slot, cmds: seq<Command>, cmd: Command,
                          key: string)
    requires FollowsRun(tol, w, log, slot, cmds, key) && Serves(cmd, key)
    ensures var now := Execute(tol, 0, w, cmd);
            FollowsRun(tol, now.worker, log + [(cmd, now.outcome)], slot, cmds + [cmd], key)
  {
    hide Execute, LeakyStep, RunFrom, Told, KeyLog, KeyEvents, SlotOf;
    assert w == Worker(w.items, None);
    KeyEventsExtends(cmds, cmd, key);
    if KeyOf(cmd) == key {
      LeakyCallIsStep(tol, w.items, cmd);
      ToldExtends(tol, slot, KeyEvents(cmds, key), Event(cmd.call.r, cmd.env));
    } else {
      OthersFind(tol, w, cmd, key);
      NoStoreStays(tol, w.items, cmd);
    }
    KeyLogExtends(log, cmd, Execute(tol, 0, w, cmd).outcome, key);
  }

  lemma NoStoreStays(tol: Tolerance, items: seq<Item>, cmd: Command)
    ensures Execute(tol, 0, Worker(items, None), cmd).worker.store == None
  {
    hide LookedUp, Serve, ApplyToCache, Added, Got;
  }

  /** In one cache every key is served as if alone. */
  lemma {:induction false} KeysRunAlone(tol: Tolerance, items: seq<Item>, cmds: seq<Command>, key: string)
    requires Plain(Find(items, key), key) && forall i :: 0 <= i < |cmds| ==> Serves(cmds[i], key)
    ensures var r := RunAlone(tol, 0, Worker(items, None), cmds);
            FollowsRun(tol, r.0, r.1, SlotOf(Find(items, key)), cmds, key)
  {
    if cmds == [] {
    } else {
      hide RunAlone, FollowsRun, Serves, Execute, SlotOf, Plain;
      var init, last := cmds[..|cmds| - 1], cmds[|cmds| - 1];
      assert cmds == init + [last];
      KeysRunAlone(tol, items, init, key);
      var before := RunAlone(tol, 0, Worker(items, None), init);
      RunAloneExtends(tol, 0, Worker(items, None), init, last);
      CommandFollowsRun(tol, before.0, before.1, SlotOf(Find(items, key)), init, last, key);
    }
  }

  function NewPool(p: Config, store: Option<Table>): State {
    State(seq(p.workers, _ => []), store)
  }

  /** What a pool's cache holds for a key. */
  function CachedSlot(p: Config, s: State, key: string): Slot {
    if p.route(key) < |s.caches| then SlotOf(Find(s.caches[p.route(key)], key)) else Empty
  }

  /** The pool has no store, its keys are at home with room for all at each worker, and the key is unknown or
      a leaky bucket. */
  ghost predicate Ready(p: Config, keys: set<string>, s: State, key: string) {
    && Routed(p) && Spacious(p, keys) && Housed(p, keys, s) && s.store == None
    && Plain(Find(s.caches[p.route(key)], key), key)
  }

  lemma NewPoolIsReady(p: Config, keys: set<string>, key: string)
    requires Routed(p) && Spacious(p, keys)
    ensures Ready(p, keys, NewPool(p, None), key) && CachedSlot(p, NewPool(p, None), key) == Empty
  {
    hide Spacious;
  }

  /** In a pool with room for every worker's keys, new or loaded, however the keys' commands interleave, a key
      is answered as it would be alone. */
  lemma PoolServesKeysAlone(p: Config, keys: set<string>, s: State, cmds: seq<Command>, key: string)
    requires Ready(p, keys, s, key)
    requires forall i :: 0 <= i < |cmds| ==> Serves(cmds[i], key) && KeyOf(cmds[i]) in keys
    ensures KeyLog(RunPool(p, s, cmds).1, key) == Told(p.tol, CachedSlot(p, s, key), KeyEvents(cmds, key))
  {
    hide RunPool, RunAlone, KeyLog, Told, KeyEvents, IsLeaky, Spacious, Tidy, Merged, Find, SlotOf, Plain;
    var one := Merged(s.caches);
    HousedRefines(p, keys, s);
    ShardingRefinesOneCache(p, 0, keys, s, Worker(one, None), cmds);
    MergedFinds(p, keys, s.caches, key);
    KeysRunAlone(p.tol, one, cmds, key);
  }

  // ----- With a store, whatever is evicted -----

  function TickOf(cmd: Command): Tick {
    if cmd.GetRateLimit? then Serving(cmd.call, cmd.env, cmd.stamp) else Restart
  }

  function Ticks(cmds: seq<Command>): seq<Tick> {
    seq(|cmds|, i requires 0 <= i < |cmds| => TickOf(cmds[i]))
  }

  /** Calls by owners that each update their item whole or not at all. */
  ghost predicate WholeCalls(tol: Tolerance, cmds: seq<Command>, now: int) {
    (forall i :: 0 <= i < |cmds| ==> cmds[i].GetRateLimit?) && WholeHistory(tol, Ticks(cmds), now)
  }

  lemma WholeCallsInit(tol: Tolerance, cmds: seq<Command>, now: int)
    requires WholeCalls(tol, cmds, now) && cmds != []
    ensures var n := |cmds| - 1;
            && WholeCalls(tol, cmds[..n], cmds[n].env.now)
            && Ticks(cmds)[..n] == Ticks(cmds[..n])
            && Ticks(cmds)[n] == Serving(cmds[n].call, cmds[n].env, cmds[n].stamp)
  {
    hide WholeHistory;
    var n := |cmds| - 1;
    assert Ticks(cmds)[..n] == Ticks(cmds[..n]);
    WholeBefore(tol, Ticks(cmds), now);
  }

  /** A small cache with its store gives the answers of an unbounded one. */
  lemma {:induction false} StoreLogsAlike(tol: Tolerance, capacity: int, cmds: seq<Command>, now: int)
    requires WholeCalls(tol, cmds, now)
    ensures var small := RunAlone(tol, capacity, Worker([], Some(map[])), cmds);
            var large := RunAlone(tol, 0, Worker([], None), cmds);
            && small.1 == large.1
            && small.0 == After(tol, capacity, Ticks(cmds)) && large.0 == Worker(AfterUnbounded(tol, Ticks(cmds)), None)
  {
    if cmds == [] {
    } else {
      hide RunAlone, WholeCalls, Handle;
      var n := |cmds| - 1;
      var init, last := cmds[..n], cmds[n];
      assert cmds == init + [last];
      WholeCallsInit(tol, cmds, now);
      StoreLogsAlike(tol, capacity, init, last.env.now);
      RunAloneExtends(tol, capacity, Worker([], Some(map[])), init, last);
      RunAloneExtends(tol, 0, Worker([], None), init, last);
      WholeCallsHistory(tol, init, last.env.now);
      StoreHidesTheCache(tol, capacity, Ticks(init), last.call, last.env, last.stamp);
      UnboundedHasNoStore(tol, AfterUnbounded(tol, Ticks(init)), last);
    }
  }

  lemma WholeCallsHistory(tol: Tolerance, cmds: seq<Command>, now: int)
    requires WholeCalls(tol, cmds, now)
    ensures WholeHistory(tol, Ticks(cmds), now)
  {
  }

  lemma UnboundedHasNoStore(tol: Tolerance, items: seq<Item>, cmd: Command)
    requires cmd.GetRateLimit?
    ensures Handle(tol, 0, Worker(items, None), cmd.call, cmd.env, cmd.stamp).worker.store == None
  {
    hide LookedUp, Serve, ApplyToCache;
  }

  // ----- One key of a node with a store -----

  /** A node serves a command, or starts again with any pool over the store that was left. */
  datatype Happening = Asked(cmd: Command) | Restarted(p: Config)

  datatype Node = Node(p: Config, state: State)

  function NodeStep(node: Node, h: Happening): (Node, Log) {
    match h
    case Asked(cmd) => var now := Dispatch(node.p, node.state, cmd); (Node(node.p, now.0), [(cmd, now.1)])
    case Restarted(p) => (Node(p, NewPool(p, node.state.store)), [])
  }

  function RunNode(node: Node, hs: seq<Happening>): (Node, Log) {
    if hs == [] then (node, [])
    else
      var before := RunNode(node, hs[..|hs| - 1]);
      var now := NodeStep(before.0, hs[|hs| - 1]);
      (now.0, before.1 + now.1)
  }

  function Commands(hs: seq<Happening>): seq<Command> {
    if hs == [] then []
    else
      var last := hs[|hs| - 1];
      Commands(hs[..|hs| - 1]) + if last.Asked? then [last.cmd] else []
  }

  /** Every pool finds a worker for every key and has these tolerances; the key is called by its owner as
      a leaky bucket, and other keys get any commands at all. */
  ghost predicate Ordinary(tol: Tolerance, h: Happening, key: string) {
    match h
    case Asked(cmd) => Serves(cmd, key) && (IsLeaky(cmd) && KeyOf(cmd) == key ==> cmd.call.owner)
    case Restarted(p) => Routed(p) && p.tol == tol
  }

  /** The key's slot is what the store holds for it while it lives, and the cache holds the same or nothing. */
  ghost predicate Keeps(w: Worker, key: string, slot: Slot, now: int) {
    && StoreKeeps(w.store, key, slot, now)
    && (Find(w.items, key).Some? ==>
          && key in w.store.value && Find(w.items, key).value.value == w.store.value[key].value
          && Find(w.items, key).value.expireAt == w.store.value[key].expireAt)
  }

  ghost predicate StoreKeeps(store: Option<Table>, key: string, slot: Slot, now: int) {
    && store.Some? && WellKept(store.value)
    && Lookup(SlotOf(Stored(store.value, key)), now, false) == Lookup(slot, now, false)
  }

  lemma KeepsLater(w: Worker, key: string, slot: Slot, now: int, later: int)
    requires Keeps(w, key, slot, now) && now <= later
    ensures Keeps(w, key, slot, later)
  {
  }

  /** Whether the key is still cached, has to be fetched or is gone, its call finds its slot. */
  lemma KeptIsFound(w: Worker, capacity: int, key: string, slot: Slot, now: int, stamp: int)
    requires Keeps(w, key, slot, now)
    ensures var found := LookedUp(w, capacity, key, now, stamp);
            && SlotOf(found.item) == Lookup(slot, now, false)
            && (found.item.Some? ==> found.item.value.value != NoValue && found.item.value.key == key)
            && Keeps(Worker(found.items, w.store), key, slot, now)
  {
    hide Without, Added;
    FindSomeIn(w.items, key);
    FindGot(w.items, key, now, key);
    var stored := StoreGet(w.store.value, key, now, stamp);
    if stored.Some? {
      FindAdded(Got(w.items, key, now).items, stored.value, capacity, key);
    }
  }

  /** An owner's leaky call is one step of its slot, and is reported; a token bucket is taken for nothing. */
  lemma ServedIsStep(tol: Tolerance, found: Option<Item>, call: Call, env: Env)
    requires call.algorithm == LeakyAlgorithm && call.owner
    requires found.Some? ==> found.value.value != NoValue && found.value.key == call.key
    ensures var served := Serve(tol, found, call, env);
            var step := LeakyStep(tol, true, SlotOf(found), call.r, env);
            && served.answer == step.answer
            && (served.effect.Leave? ==> step.slot == SlotOf(found))
            && (served.effect.Erase? ==> step.slot.Empty?)
            && (!served.effect.Leave? && !served.effect.Erase? ==>
                  && served.effect.Keep? && served.effect.item.key == call.key
                  && served.effect.item.value.LeakyValue? && step.slot == SlotOf(Some(served.effect.item)))
  {
    hide ExistingStep, NewStep;
    ErrorsHoldNothing(call.r, env);
    if found.Some? && found.value.value.LeakyValue? {
      ErrorsKeep(tol, found.value.value.bucket, found.value.expireAt, call.r, env);
    }
  }

  lemma LookupFirst(tol: Tolerance, slot: Slot, r: Request, env: Env)
    ensures LeakyStep(tol, false, slot, r, env) == LeakyStep(tol, true, Lookup(slot, env.now, false), r, env)
  {
    hide ExistingStep, NewStep;
  }

  lemma OwnCallKeeps(tol: Tolerance, capacity: int, w: Worker, cmd: Command, slot: Slot)
    requires IsLeaky(cmd) && cmd.call.owner && Keeps(w, KeyOf(cmd), slot, cmd.env.now)
    ensures var done := Execute(tol, capacity, w, cmd);
            var step := LeakyStep(tol, false, slot, cmd.call.r, cmd.env);
            done.outcome == Limited(step.answer) && Keeps(done.worker, KeyOf(cmd), step.slot, cmd.env.now)
  {
    hide Serve, LookedUp, Added, LeakyStep, Got;
    var call, env := cmd.call, cmd.env;
    KeptIsFound(w, capacity, call.key, slot, env.now, cmd.stamp);
    LookupFirst(tol, slot, call.r, env);
    var found := LookedUp(w, capacity, call.key, env.now, cmd.stamp);
    ServedIsStep(tol, found.item, call, env);
    var effect := Serve(tol, found.item, call, env).effect;
    if effect.Keep? {
      FindAdded(found.items, effect.item, capacity, call.key);
    } else if effect.Erase? {
      FindWithout(found.items, call.key, call.key);
    }
  }

  predicate FoundOrLost(after: Option<Item>, before: Option<Item>) {
    after == before || after == None
  }

  lemma ApplyLosesOthers(items: seq<Item>, capacity: int, key: string, effect: Effect, other: string)
    requires other != key && (Writes(effect) ==> effect.item.key == key)
    ensures FoundOrLost(Find(ApplyToCache(items, capacity, key, effect), other), Find(items, other))
  {
    hide Added;
    match effect
    case Leave =>
    case Keep(item) => FindAdded(items, item, capacity, other);
    case KeepUnsaved(item) => FindAdded(items, item, capacity, other);
    case Replace(item) => FindAdded(items, item, capacity, other);
    case Erase => FindWithout(items, key, other);
  }

  lemma LookupLosesOthers(w: Worker, capacity: int, key: string, now: int, stamp: int, other: string)
    requires other != key && StoreWellKept(w.store)
    ensures FoundOrLost(Find(LookedUp(w, capacity, key, now, stamp).items, other), Find(w.items, other))
  {
    hide Got, Added;
    FindGot(w.items, key, now, other);
    if w.store.Some? {
      var stored := StoreGet(w.store.value, key, now, stamp);
      if stored.Some? {
        FindAdded(Got(w.items, key, now).items, stored.value, capacity, other);
      }
    }
  }

  /** A command leaves another key's item as it was, or evicts it. */
  lemma OthersFoundOrLost(tol: Tolerance, capacity: int, w: Worker, cmd: Command, other: string)
    requires other != KeyOf(cmd) && WellFormed(cmd) && StoreWellKept(w.store)
    ensures FoundOrLost(Find(Execute(tol, capacity, w, cmd).worker.items, other), Find(w.items, other))
  {
    hide Serve, Got, Added, LookedUp, ApplyToCache;
    match cmd
    case GetRateLimit(call, env, stamp) =>
      LookupLosesOthers(w, capacity, call.key, env.now, stamp, other);
      var found := LookedUp(w, capacity, call.key, env.now, stamp);
      ServedKey(tol, found.item, call, env);
      ApplyLosesOthers(found.items, capacity, call.key, Serve(tol, found.item, call, env).effect, other);
    case AddCacheItem(_, item) => FindAdded(w.items, item, capacity, other);
    case GetCacheItem(key, now) => FindGot(w.items, key, now, other);
  }

  lemma CommandKeepsStoreWell(tol: Tolerance, capacity: int, w: Worker, cmd: Command)
    requires StoreWellKept(w.store)
    ensures StoreWellKept(Execute(tol, capacity, w, cmd).worker.store)
  {
    hide Serve, LookedUp, Added, Got, ApplyToCache;
    if cmd.GetRateLimit? {
      ServedKey(tol, LookedUp(w, capacity, cmd.call.key, cmd.env.now, cmd.stamp).item, cmd.call, cmd.env);
    }
  }

  /** A command for another key, whether served from the same cache or another. */
  lemma OtherCallKeeps(tol: Tolerance, capacity: int, w: Worker, cmd: Command, items: seq<Item>, key: string,
                       slot: Slot, now: int)
    requires KeyOf(cmd) != key && WellFormed(cmd) && Keeps(Worker(items, w.store), key, slot, now)
    ensures var done := Execute(tol, capacity, w, cmd).worker;
            && Keeps(Worker(items, done.store), key, slot, now)
            && (w.items == items ==> Keeps(done, key, slot, now))
  {
    hide Execute, SlotOf, Lookup;
    CommandKeepsStoreWell(tol, capacity, w, cmd);
    OthersStay(tol, capacity, w, cmd, key);
    OthersFoundOrLost(tol, capacity, w, cmd, key);
  }

  /** The key's worker of a node keeps the key's own run. */
  ghost predicate NodeKeeps(tol: Tolerance, node: Node, key: string, slot: Slot, now: int) {
    && Routed(node.p) && node.p.tol == tol && |node.state.caches| == node.p.workers
    && Keeps(Worker(node.state.caches[node.p.route(key)], node.state.store), key, slot, now)
  }

  lemma NodeKeepsLater(tol: Tolerance, node: Node, key: string, slot: Slot, now: int, later: int)
    requires NodeKeeps(tol, node, key, slot, now) && now <= later
    ensures NodeKeeps(tol, node, key, slot, later)
  {
    hide Keeps;
    KeepsLater(Worker(node.state.caches[node.p.route(key)], node.state.store), key, slot, now, later);
  }

  lemma OwnStepKeeps(tol: Tolerance, node: Node, cmd: Command, slot: Slot)
    requires IsLeaky(cmd) && cmd.call.owner && NodeKeeps(tol, node, KeyOf(cmd), slot, cmd.env.now)
    ensures var now := NodeStep(node, Asked(cmd));
            var step := LeakyStep(tol, false, slot, cmd.call.r, cmd.env);
            now.1 == [(cmd, Limited(step.answer))] && NodeKeeps(tol, now.0, KeyOf(cmd), step.slot, cmd.env.now)
  {
    hide Execute, Keeps, LeakyStep;
    var w := node.p.route(KeyOf(cmd));
    OwnCallKeeps(tol, node.p.capacity, Worker(node.state.caches[w], node.state.store), cmd, slot);
  }

  lemma OtherStepKeeps(tol: Tolerance, node: Node, h: Happening, key: string, slot: Slot, now: int)
    requires NodeKeeps(tol, node, key, slot, now) && Ordinary(tol, h, key) && (h.Asked? ==> KeyOf(h.cmd) != key)
    ensures NodeKeeps(tol, NodeStep(node, h).0, key, slot, now)
  {
    match h
    case Asked(cmd) =>
      hide Execute, Keeps, IsLeaky;
      var mine, w := node.p.route(key), node.p.route(KeyOf(cmd));
      OtherCallKeeps(tol, node.p.capacity, Worker(node.state.caches[w], node.state.store), cmd,
                     node.state.caches[mine], key, slot, now);
    case Restarted(p) =>
  }

  lemma RunNodeExtends(node: Node, hs: seq<Happening>, h: Happening)
    ensures var before := RunNode(node, hs);
            RunNode(node, hs + [h]) == (NodeStep(before.0, h).0, before.1 + NodeStep(before.0, h).1)
    ensures Commands(hs + [h]) == if h.Asked? then Commands(hs) + [h.cmd] else Commands(hs)
  {
    hide NodeStep;
    assert (hs + [h])[..|hs|] == hs;
  }

  /** The key's worker keeps the key's own run, and the key was answered as alone. */
  ghost predicate NodeFollows(tol: Tolerance, r: (Node, Log), slot: Slot, cmds: seq<Command>, key: string, now: int) {
    && NodeKeeps(tol, r.0, key, RunFrom(tol, false, slot, KeyEvents(cmds, key)), now)
    && KeyLog(r.1, key) == Told(tol, slot, KeyEvents(cmds, key))
  }

  lemma OwnStepFollows(tol: Tolerance, r: (Node, Log), slot: Slot, cmds: seq<Command>, cmd: Command)
    requires IsLeaky(cmd) && cmd.call.owner && NodeFollows(tol, r, slot, cmds, KeyOf(cmd), cmd.env.now)
    ensures var now := NodeStep(r.0, Asked(cmd));
            NodeFollows(tol, (now.0, r.1 + now.1), slot, cmds + [cmd], KeyOf(cmd), cmd.env.now)
  {
    hide NodeKeeps, NodeStep, LeakyStep, KeyEvents, KeyLog, Told, RunFrom;
    var events, e := KeyEvents(cmds, KeyOf(cmd)), Event(cmd.call.r, cmd.env);
    OwnStepKeeps(tol, r.0, cmd, RunFrom(tol, false, slot, events));
    KeyEventsExtends(cmds, cmd, KeyOf(cmd));
    var answer := LeakyStep(tol, false, RunFrom(tol, false, slot, events), e.r, e.env).answer;
    KeyLogExtends(r.1, cmd, Limited(answer), KeyOf(cmd));
    ToldExtends(tol, slot, events, e);
  }

  lemma OtherStepFollows(tol: Tolerance, r: (Node, Log), slot: Slot, cmds: seq<Command>, h: Happening, key: string,
                         now: int)
    requires NodeFollows(tol, r, slot, cmds, key, now) && Ordinary(tol, h, key) && (h.Asked? ==> KeyOf(h.cmd) != key)
    ensures var after := NodeStep(r.0, h);
            NodeFollows(tol, (after.0, r.1 + after.1), slot, if h.Asked? then cmds + [h.cmd] else cmds, key, now)
  {
    hide NodeKeeps, LeakyStep, KeyEvents, KeyLog, Told, RunFrom, Dispatch, IsLeaky;
    OtherStepKeeps(tol, r.0, h, key, RunFrom(tol, false, slot, KeyEvents(cmds, key)), now);
    match h
    case Asked(cmd) =>
      KeyEventsExtends(cmds, cmd, key);
      KeyLogExtends(r.1, cmd, Dispatch(r.0.p, r.0.state, cmd).1, key);
    case Restarted(_) => assert r.1 + [] == r.1;
  }

  /** The key is called at times that do not go back, from a start up to now. */
  ghost predicate Timely(events: seq<Event>, start: int, now: int) {
    ClockRuns(events) && start <= now && forall i :: 0 <= i < |events| ==> start <= events[i].env.now <= now
  }

  lemma TimelyBefore(events: seq<Event>, e: Event, start: int, now: int)
    requires Timely(events + [e], start, now)
    ensures Timely(events, start, e.env.now) && e.env.now <= now
  {
    var all := events + [e];
    assert forall i :: 0 <= i < |events| ==> events[i] == all[i];
    assert all[|events|] == e;
  }

  lemma {:induction false} NodeRuns(node: Node, hs: seq<Happening>, key: string, slot: Slot, start: int, now: int)
    requires NodeKeeps(node.p.tol, node, key, slot, start)
    requires forall i :: 0 <= i < |hs| ==> Ordinary(node.p.tol, hs[i], key)
    requires Timely(KeyEvents(Commands(hs), key), start, now)
    ensures NodeFollows(node.p.tol, RunNode(node, hs), slot, Commands(hs), key, now)
  {
    hide NodeKeeps, NodeStep, LeakyStep, NodeFollows, Timely;
    var tol := node.p.tol;
    if hs == [] {
      NodeStarts(node, key, slot, start, now);
    } else {
      hide RunNode, Commands, KeyEvents;
      var init, h := hs[..|hs| - 1], hs[|hs| - 1];
      assert hs == init + [h];
      RunNodeExtends(node, init, h);
      var before, cmds := RunNode(node, init), Commands(init);
      if h.Asked? && KeyOf(h.cmd) == key {
        KeyEventsExtends(cmds, h.cmd, key);
        TimelyBefore(KeyEvents(cmds, key), Event(h.cmd.call.r, h.cmd.env), start, now);
        NodeRuns(node, init, key, slot, start, h.cmd.env.now);
        OwnStepFollows(tol, before, slot, cmds, h.cmd);
        FollowsLater(tol, RunNode(node, hs), slot, Commands(hs), key, h.cmd.env.now, now);
      } else {
        OthersAddNothing(cmds, h, key);
        NodeRuns(node, init, key, slot, start, now);
        OtherStepFollows(tol, before, slot, cmds, h, key, now);
      }
    }
  }

  lemma NodeStarts(node: Node, key: string, slot: Slot, start: int, now: int)
    requires NodeKeeps(node.p.tol, node, key, slot, start) && Timely([], start, now)
    ensures NodeFollows(node.p.tol, (node, []), slot, [], key, now)
  {
    hide NodeKeeps;
    NodeKeepsLater(node.p.tol, node, key, slot, start, now);
  }

  lemma FollowsLater(tol: Tolerance, r: (Node, Log), slot: Slot, cmds: seq<Command>, key: string, now: int, later: int)
    requires NodeFollows(tol, r, slot, cmds, key, now) && now <= later
    ensures NodeFollows(tol, r, slot, cmds, key, later)
  {
    hide NodeKeeps, KeyEvents, KeyLog, Told, RunFrom;
    NodeKeepsLater(tol, r.0, key, RunFrom(tol, false, slot, KeyEvents(cmds, key)), now, later);
  }

  lemma OthersAddNothing(cmds: seq<Command>, h: Happening, key: string)
    requires h.Asked? ==> KeyOf(h.cmd) != key
    ensures KeyEvents(if h.Asked? then cmds + [h.cmd] else cmds, key) == KeyEvents(cmds, key)
  {
    hide KeyEvents;
    if h.Asked? {
      KeyEventsExtends(cmds, h.cmd, key);
    }
  }

  function NewNode(p: Config, store: Option<Table>): Node {
    Node(p, NewPool(p, store))
  }

  /** When the first and the last of the events come. */
  function First(events: seq<Event>): int {
    if events == [] then 0 else events[0].env.now
  }

  function Last(events: seq<Event>): int {
    if events == [] then 0 else events[|events| - 1].env.now
  }

  lemma ClockIsTimely(events: seq<Event>)
    requires ClockRuns(events)
    ensures Timely(events, First(events), Last(events))
  {
  }

  lemma StoreIsKept(p: Config, store: Table, key: string, now: int)
    requires Routed(p) && WellKept(store)
    ensures NodeKeeps(p.tol, NewNode(p, Some(store)), key, SlotOf(Stored(store, key)), now)
  {
  }

  /** With a write-through store the same holds of caches of any size, whatever they evict, and across
      restarts: over any store, what it holds for the key included, and among any commands of other keys,
      peers' items and failed updates included, a key its owner calls is answered as it would be alone. */
  lemma StoredPoolServesKeysAlone(p: Config, store: Table, hs: seq<Happening>, key: string)
    requires Routed(p) && WellKept(store) && forall i :: 0 <= i < |hs| ==> Ordinary(p.tol, hs[i], key)
    requires ClockRuns(KeyEvents(Commands(hs), key))
    ensures KeyLog(RunNode(NewNode(p, Some(store)), hs).1, key) ==
            Told(p.tol, SlotOf(Stored(store, key)), KeyEvents(Commands(hs), key))
  {
    hide RunNode, KeyLog, Told, KeyEvents, Commands, Ordinary, Timely, ClockRuns, NodeKeeps, SlotOf, Stored, RunFrom;
    var events := KeyEvents(Commands(hs), key);
    ClockIsTimely(events);
    StoreIsKept(p, store, key, First(events));
    NodeRuns(NewNode(p, Some(store)), hs, key, SlotOf(Stored(store, key)), First(events), Last(events));
  }

  // ----- Conformance of the whole service -----

  function GrantsTold(told: seq<(Event, Answer)>): seq<LeakyConformance.Grant> {
    if told == [] then []
    else GrantsTold(told[..|told| - 1]) + LeakyConformance.GrantOf(told[|told| - 1].0, told[|told| - 1].1)
  }

  lemma {:induction false} GrantsAreTold(tol: Tolerance, slot: Slot, events: seq<Event>)
    ensures GrantsTold(Told(tol, slot, events)) == LeakyConformance.GrantsFrom(tol, false, slot, events)
  {
    hide LeakyStep, RunFrom, LeakyConformance.GrantOf;
    if events == [] {
    } else {
      var init := events[..|events| - 1];
      GrantsAreTold(tol, slot, init);
      var told := Told(tol, slot, events);
      assert told[..|told| - 1] == Told(tol, slot, init);
    }
  }

  /** What is told conforms: from any grant to any other, at most the burst and the leak between them,
      with a millisecond of rounding and what the tolerances forgive. */
  ghost predicate Conforming(tol: Tolerance, cfg: LeakyFixed.Config, gs: seq<LeakyConformance.Grant>)
    requires LeakyFixed.Positive(cfg)
  {
    forall i, j :: 0 <= i <= j < |gs| ==> LeakyConformance.WithinBound(tol, cfg, gs, i, j)
  }

  lemma ToldConforms(tol: Tolerance, cfg: LeakyFixed.Config, slot: Slot, events: seq<Event>)
    requires Sane(tol) && LeakyFixed.Positive(cfg) && LeakyFixed.SteadyRun(cfg, events) && LeakyFixed.Refillable(cfg)
    requires events != [] ==> LeakyFixed.Fits(cfg, slot, First(events))
    ensures Conforming(tol, cfg, GrantsTold(Told(tol, slot, events)))
  {
    hide Told, GrantsTold, LeakyConformance.GrantsFrom, LeakyConformance.WithinBound, LeakyFixed.SteadyRun,
         LeakyFixed.Fits;
    GrantsAreTold(tol, slot, events);
    var gs := GrantsTold(Told(tol, slot, events));
    forall i, j | 0 <= i <= j < |gs|
      ensures LeakyConformance.WithinBound(tol, cfg, gs, i, j)
    {
      LeakyConformance.ConformanceFrom(tol, cfg, false, slot, events, i, j);
    }
  }

  /** A key's requests of one configuration, from what it holds of that configuration. */
  ghost predicate Configured(cfg: LeakyFixed.Config, slot: Slot, events: seq<Event>) {
    && LeakyFixed.Positive(cfg) && LeakyFixed.Refillable(cfg) && LeakyFixed.SteadyRun(cfg, events)
    && (events != [] ==> LeakyFixed.Fits(cfg, slot, First(events)))
  }

  /** The service conforms: whatever commands the pool serves for other keys, however it is sharded and
      whatever it starts from, while nothing is evicted. */
  lemma PoolConforms(p: Config, keys: set<string>, s: State, cmds: seq<Command>, key: string, cfg: LeakyFixed.Config)
    requires Ready(p, keys, s, key) && Sane(p.tol)
    requires forall n :: 0 <= n < |cmds| ==> Serves(cmds[n], key) && KeyOf(cmds[n]) in keys
    requires Configured(cfg, CachedSlot(p, s, key), KeyEvents(cmds, key))
    ensures Conforming(p.tol, cfg, GrantsTold(KeyLog(RunPool(p, s, cmds).1, key)))
  {
    hide Ready, Serves, RunPool, KeyLog, Told, GrantsTold, KeyEvents, CachedSlot, Conforming;
    PoolServesKeysAlone(p, keys, s, cmds, key);
    ToldConforms(p.tol, cfg, CachedSlot(p, s, key), KeyEvents(cmds, key));
  }

  lemma SteadyClock(cfg: LeakyFixed.Config, events: seq<Event>)
    requires LeakyFixed.SteadyRun(cfg, events)
    ensures ClockRuns(events)
  {
  }

  /** With a write-through store it conforms whatever is evicted and however often it is restarted. */
  lemma StoredPoolConforms(p: Config, store: Table, hs: seq<Happening>, key: string, cfg: LeakyFixed.Config)
    requires Routed(p) && Sane(p.tol) && WellKept(store)
    requires forall i :: 0 <= i < |hs| ==> Ordinary(p.tol, hs[i], key)
    requires Configured(cfg, SlotOf(Stored(store, key)), KeyEvents(Commands(hs), key))
    ensures Conforming(p.tol, cfg, GrantsTold(KeyLog(RunNode(NewNode(p, Some(store)), hs).1, key)))
  {
    hide Routed, WellKept, Ordinary, RunNode, KeyLog, Told, GrantsTold, KeyEvents, Commands, SlotOf, Stored,
         Conforming, ClockRuns;
    var events := KeyEvents(Commands(hs), key);
    SteadyClock(cfg, events);
    StoredPoolServesKeysAlone(p, store, hs, key);
    ToldConforms(p.tol, cfg, SlotOf(Stored(store, key)), events);
  }

  lemma {:induction false} ToldIsExact(cfg: LeakyFixed.Config, slot: Slot, events: seq<Event>)
    requires LeakyFixed.Positive(cfg) && LeakyFixed.SteadyRun(cfg, events)
    requires LeakyTolerance.SlotOnGrid(cfg, slot) && (events != [] ==> LeakyFixed.Fits(cfg, slot, First(events)))
    requires cfg.duration < 1_000_000_000 && cfg.limit < 1_000_000
    ensures Told(CODE_TOLERANCE, slot, events) == Told(EXACT, slot, events)
  {
    hide LeakyStep, RunFrom, LeakyFixed.Steady, LeakyFixed.Fits, LeakyTolerance.SlotOnGrid;
    if events == [] {
    } else {
      var n := |events| - 1;
      ToldIsExact(cfg, slot, events[..n]);
      LeakyTolerance.CodeFromIsExact(cfg, false, slot, events, n);
    }
  }

  lemma CodeConforms(cfg: LeakyFixed.Config, slot: Slot, events: seq<Event>)
    requires Configured(cfg, slot, events)
    ensures var gs := GrantsTold(Told(CODE_TOLERANCE, slot, events));
            && Conforming(CODE_TOLERANCE, cfg, gs)
            && (cfg.duration < 1_000_000_000 && cfg.limit < 1_000_000 && LeakyTolerance.SlotOnGrid(cfg, slot) ==>
                  Conforming(EXACT, cfg, gs))
  {
    hide Told, GrantsTold, LeakyFixed.SteadyRun, LeakyFixed.Refillable, LeakyFixed.Fits, Conforming,
         LeakyTolerance.SlotOnGrid;
    ToldConforms(CODE_TOLERANCE, cfg, slot, events);
    if cfg.duration < 1_000_000_000 && cfg.limit < 1_000_000 && LeakyTolerance.SlotOnGrid(cfg, slot) {
      ToldIsExact(cfg, slot, events);
      ToldConforms(EXACT, cfg, slot, events);
    }
  }

  /** Whatever a key alone is told by the code, with its tolerances, conforms with none to forgive. */
  ghost predicate CodeAlwaysConforms(cfg: LeakyFixed.Config)
    requires LeakyFixed.Positive(cfg)
  {
    forall events :: LeakyFixed.SteadyRun(cfg, events) ==>
      Conforming(EXACT, cfg, GrantsTold(Told(CODE_TOLERANCE, Empty, events)))
  }

  /** Below a limit of a million in a billion milliseconds that is so exactly where a spent burst refills
      by the time a key untouched since counts as expired. */
  lemma CodeConformsIff(cfg: LeakyFixed.Config)
    requires LeakyFixed.Positive(cfg) && cfg.duration < 1_000_000_000 && cfg.limit < 1_000_000
    ensures CodeAlwaysConforms(cfg) <==> LeakyFixed.Refillable(cfg)
  {
    hide Told, GrantsTold, LeakyFixed.SteadyRun, LeakyFixed.Refillable, LeakyConformance.WithinBound,
         LeakyConformance.Grants, LeakyConformance.GrantsFrom;
    LeakyConformance.ConformsIff(EXACT, cfg);
    forall events | LeakyFixed.SteadyRun(cfg, events)
      ensures GrantsTold(Told(CODE_TOLERANCE, Empty, events)) == LeakyConformance.Grants(EXACT, false, events)
    {
      ToldIsExact(cfg, Empty, events);
      GrantsAreTold(EXACT, Empty, events);
      LeakyConformance.GrantsFromEmpty(EXACT, false, events);
    }
  }

  function AskedAll(cmds: seq<Command>): seq<Happening> {
    seq(|cmds|, i requires 0 <= i < |cmds| => Asked(cmds[i]))
  }

  lemma {:induction false} NoRestartIsPool(node: Node, cmds: seq<Command>)
    ensures var x, y := RunNode(node, AskedAll(cmds)), RunPool(node.p, node.state, cmds);
            x.0.p == node.p && x.0.state == y.0 && x.1 == y.1 && Commands(AskedAll(cmds)) == cmds
  {
    hide Dispatch;
    if cmds == [] {
    } else {
      var n := |cmds| - 1;
      assert AskedAll(cmds)[..n] == AskedAll(cmds[..n]);
      NoRestartIsPool(node, cmds[..n]);
    }
  }

  /** What a node holds for a key: in its store, or in its cache if it has none. */
  function NodeSlot(node: Node, key: string): Slot {
    if node.state.store.Some? then SlotOf(Stored(node.state.store.value, key))
    else CachedSlot(node.p, node.state, key)
  }

  /** A node without a store that has room for every worker's keys and is not restarted, or a new one over
      any store. */
  ghost predicate Reliable(node: Node, keys: set<string>, hs: seq<Happening>, key: string) {
    if node.state.store == None
    then && Ready(node.p, keys, node.state, key) && hs == AskedAll(Commands(hs))
         && forall cmd :: cmd in Commands(hs) ==> Serves(cmd, key) && KeyOf(cmd) in keys
    else && node == NewNode(node.p, node.state.store) && Routed(node.p) && WellKept(node.state.store.value)
         && forall i :: 0 <= i < |hs| ==> Ordinary(node.p.tol, hs[i], key)
  }

  lemma ReliableServesKeysAlone(node: Node, keys: set<string>, hs: seq<Happening>, key: string)
    requires Reliable(node, keys, hs, key) && ClockRuns(KeyEvents(Commands(hs), key))
    ensures KeyLog(RunNode(node, hs).1, key) == Told(node.p.tol, NodeSlot(node, key), KeyEvents(Commands(hs), key))
  {
    hide RunNode, RunPool, KeyLog, Told, KeyEvents, Commands, Ready, Serves, Ordinary, WellKept, AskedAll, Routed,
         SlotOf, Stored, CachedSlot, ClockRuns, NewNode;
    if node.state.store == None {
      NoRestartIsPool(node, Commands(hs));
      PoolServesKeysAlone(node.p, keys, node.state, Commands(hs), key);
    } else {
      StoredPoolServesKeysAlone(node.p, node.state.store.value, hs, key);
    }
  }

  /** The code as it is, with its own tolerances; and with none to forgive below a limit of a million in a
      billion milliseconds, from an unknown key or any that the code has left. */
  lemma ServiceConforms(node: Node, keys: set<string>, hs: seq<Happening>, key: string, cfg: LeakyFixed.Config)
    requires node.p.tol == CODE_TOLERANCE && Reliable(node, keys, hs, key)
    requires Configured(cfg, NodeSlot(node, key), KeyEvents(Commands(hs), key))
    ensures var gs := GrantsTold(KeyLog(RunNode(node, hs).1, key));
            && Conforming(CODE_TOLERANCE, cfg, gs)
            && (LeakyTolerance.SlotOnGrid(cfg, NodeSlot(node, key)) ==>
                  cfg.duration < 1_000_000_000 && cfg.limit < 1_000_000 ==> Conforming(EXACT, cfg, gs))
  {
    hide RunNode, KeyLog, Told, GrantsTold, KeyEvents, Commands, Reliable, NodeSlot, Conforming, ClockRuns,
         LeakyTolerance.SlotOnGrid;
    var events := KeyEvents(Commands(hs), key);
    SteadyClock(cfg, events);
    ReliableServesKeysAlone(node, keys, hs, key);
    CodeConforms(cfg, NodeSlot(node, key), events);
  }
}
