/**
 One worker serving rate limit calls from its cache, with or without a write-through store. The
 store makes the cache's size, and losing the cache altogether, invisible to callers.
 */
module Serving {
  import opened LeakyBucket
  import opened TokenBucket
  import opened Recency

  datatype Algorithm = TokenAlgorithm | LeakyAlgorithm

  /** A call for a key; only the owner's calls are reported to the store. */
  datatype Call = Call(key: string, algorithm: Algorithm, r: Request, owner: bool)

  /** What serving a call does to its key's item. */
  datatype Effect =
    | Leave                    // no item is written
    | Keep(item: Item)         // written to the cache and reported to the store
    | KeepUnsaved(item: Item)  // written to the cache only: not the owner's, or an error was found later
    | Replace(item: Item)      // written to the cache, and the item of the other algorithm removed from the store
    | Erase                    // removed from the cache and the store

  datatype Served = Served(answer: Answer, effect: Effect)

  /** An item that a call can build on. */
  predicate Sound(found: Option<Item>, key: string) {
    found.Some? && found.value.value != NoValue && found.value.key == key
  }

  /** A key's first item is reported by its owner; instead of what the key held before, if it did. */
  function KeepNew(call: Call, item: Item, otherwise: Effect): Effect {
    if call.owner then Keep(item) else if otherwise.Erase? then Replace(item) else KeepUnsaved(item)
  }

  function KeepOld(call: Call, item: Item): Effect {
    if call.owner then Keep(item) else KeepUnsaved(item)
  }

  function KeepLeaky(call: Call, step: Step, otherwise: Effect): Served {
    Served(step.answer,
           if step.slot.Empty? then otherwise
           else KeepNew(call, Item(call.key, LeakyValue(step.slot.bucket), step.slot.expireAt, 0), otherwise))
  }

  function KeepToken(call: Call, step: TokenStep, otherwise: Effect): Served {
    Served(step.answer,
           if step.slot.NoToken? then otherwise
           else KeepNew(call, Item(call.key, TokenValue(step.slot.token), step.slot.expireAt, 0), otherwise))
  }

  function ServeLeaky(tol: Tolerance, found: Option<Item>, call: Call, env: Env): Served {
    if !Sound(found, call.key) then KeepLeaky(call, NewStep(call.r, env), Leave)
    else if !found.value.value.LeakyValue? then KeepLeaky(call, NewStep(call.r, env), Erase)
    else
      var item := found.value;
      var step := ExistingStep(tol, item.value.bucket, item.expireAt, call.r, env);
      var item' := item.(value := LeakyValue(step.slot.bucket), expireAt := step.slot.expireAt);
      Served(step.answer, if step.answer.CalendarError? then Leave else KeepOld(call, item'))
  }

  function ServeToken(found: Option<Item>, call: Call, env: Env): Served {
    if !Sound(found, call.key) then KeepToken(call, NewToken(call.r, env), Leave)
    else if call.r.reset then Served(Answer(UnderLimit, call.r.limit, call.r.limit, 0, 0), Erase)
    else if !found.value.value.TokenValue? then KeepToken(call, NewToken(call.r, env), Erase)
    else
      var item := found.value;
      var step := ExistingToken(item.value.token, item.expireAt, call.r, env);
      var item' := item.(value := TokenValue(step.slot.token), expireAt := step.slot.expireAt);
      Served(step.answer, if step.answer.CalendarError? then KeepUnsaved(item') else KeepOld(call, item'))
  }

  function Serve(tol: Tolerance, found: Option<Item>, call: Call, env: Env): Served {
    if call.algorithm == LeakyAlgorithm then ServeLeaky(tol, found, call, env) else ServeToken(found, call, env)
  }

  // ----- A worker's cache and its store -----

  type Table = map<string, Item>

  /** The store answers with the last item it was told of, while unexpired, and may stamp it with a
      time to be asked again. */
  function StoreGet(store: Table, key: string, now: int, stamp: int): Option<Item> {
    if key in store && now <= store[key].expireAt then Some(store[key].(invalidAt := stamp)) else None
  }

  datatype Worker = Worker(items: seq<Item>, store: Option<Table>)

  datatype Reply = Reply(worker: Worker, answer: Answer)

  /** A cache miss asks the store and caches what it gives. */
  function LookedUp(w: Worker, capacity: int, key: string, now: int, stamp: int): Found {
    var got := Got(w.items, key, now);
    if got.item.None? && w.store.Some? then
      var stored := StoreGet(w.store.value, key, now, stamp);
      if stored.Some? then Found(Added(got.items, stored.value, capacity), stored) else got
    else got
  }

  function ApplyToCache(items: seq<Item>, capacity: int, key: string, effect: Effect): seq<Item> {
    match effect
    case Leave => items
    case Keep(item) => Added(items, item, capacity)
    case KeepUnsaved(item) => Added(items, item, capacity)
    case Replace(item) => Added(items, item, capacity)
    case Erase => Without(items, key)
  }

  function ApplyToStore(store: Table, key: string, effect: Effect): Table {
    match effect
    case Leave => store
    case Keep(item) => store[key := item]
    case KeepUnsaved(_) => store
    case Replace(_) => store - {key}
    case Erase => store - {key}
  }

  function Handle(tol: Tolerance, capacity: int, w: Worker, call: Call, env: Env, stamp: int): Reply {
    var found := LookedUp(w, capacity, call.key, env.now, stamp);
    var served := Serve(tol, found.item, call, env);
    Reply(Worker(ApplyToCache(found.items, capacity, call.key, served.effect),
                 if w.store.Some? then Some(ApplyToStore(w.store.value, call.key, served.effect)) else None),
          served.answer)
  }

  // ----- Small cache and store against an unbounded cache -----

  /** What of a value later calls can see: of a token bucket's limit and what remains, which every call
      adjusts to its own limit first, only the difference, unless less than nothing remains. */
  function Visible(value: Value): Value {
    if value.TokenValue? && value.token.remaining >= 0
    then TokenValue(value.token.(limit := value.token.limit - value.token.remaining, remaining := 0))
    else value
  }

  /** What a key holds at a moment, leaving out when a store wants to be asked again. */
  function Live(found: Option<Item>, now: int): Option<(Value, int)> {
    if found.Some? && now <= found.value.expireAt
    then Some((Visible(found.value.value), found.value.expireAt)) else None
  }

  /** The same to every later call, but for the time to be asked again. */
  predicate Alike(a: Item, b: Item) {
    Visible(a.value) == Visible(b.value) && a.expireAt == b.expireAt && a.key == b.key
  }

  function Stored(store: Table, key: string): Option<Item> {
    if key in store then Some(store[key]) else None
  }

  ghost predicate WellKept(store: Table) {
    forall k :: k in store ==> store[k].key == k && store[k].value != NoValue
  }

  /** The store holds what the unbounded cache does, and the small cache nothing else. */
  ghost predicate Mirrors(w: Worker, unbounded: seq<Item>, now: int) {
    && w.store.Some? && WellKept(w.store.value)
    && (forall k :: Live(Find(unbounded, k), now) == Live(Stored(w.store.value, k), now))
    && (forall k :: Find(unbounded, k).Some? ==> Find(unbounded, k).value.invalidAt == 0)
    && forall k :: Find(w.items, k).Some? ==>
         k in w.store.value && Alike(Find(w.items, k).value, w.store.value[k])
  }

  predicate AlikeFound(a: Option<Item>, b: Option<Item>) {
    (a.None? && b.None?) || (a.Some? && b.Some? && Alike(a.value, b.value))
  }

  /** The call finds out that its duration is no calendar code only after its limit has taken from the
      item more than remained. */
  predicate HalfUpdates(found: Option<Item>, call: Call, env: Env) {
    && call.algorithm == TokenAlgorithm && Sound(found, call.key) && found.value.value.TokenValue? && !call.r.reset
    && var t := found.value.value.token;
    && t.limit != call.r.limit && (t.remaining < 0 || t.remaining + call.r.limit - t.limit < 0)
    && t.duration != call.r.duration && call.r.gregorian && env.span.NotACode?
  }

  /** A call of the owner's that updates its item whole or not at all. */
  predicate Whole(found: Option<Item>, call: Call, env: Env) {
    call.owner && !HalfUpdates(found, call, env)
  }

  /** Writes that are alike; one that is not reported changed nothing that shows. */
  ghost predicate SameEffects(a: Option<Item>, x: Effect, y: Effect, key: string) {
    match x
    case Keep(item) => y.Keep? && Alike(item, y.item) && item.key == key && item.value != NoValue
    case KeepUnsaved(item) => y.KeepUnsaved? && AlikeFound(a, Some(item)) && Alike(item, y.item) && item.key == key
    case _ => x == y && !x.Replace?
  }

  lemma RelimitedAlike(t: Token, u: Token, limit: int)
    requires Visible(TokenValue(t)) == Visible(TokenValue(u))
    ensures Relimited(t, limit) == Relimited(u, limit)
    ensures t.duration == u.duration
  {
  }

  /** A limit that leaves what remains above zero changes nothing that shows. */
  lemma RelimitedShowsNothing(t: Token, limit: int)
    requires t.limit == limit || (0 <= t.remaining && 0 <= t.remaining + limit - t.limit)
    ensures Visible(TokenValue(Relimited(t, limit))) == Visible(TokenValue(t))
  {
  }

  lemma TokenSteps(t: Token, u: Token, expireAt: int, r: Request, env: Env)
    requires Visible(TokenValue(t)) == Visible(TokenValue(u))
    ensures ExistingToken(t, expireAt, r, env) == ExistingToken(u, expireAt, r, env)
  {
    hide Relimited, Retimed, RetimedExpiry, TakeTokens;
    RelimitedAlike(t, u, r.limit);
  }

  lemma TokenErrors(t: Token, expireAt: int, r: Request, env: Env)
    ensures var step := ExistingToken(t, expireAt, r, env);
            step.answer.CalendarError? ==>
              && step.slot == TokenHeld(Relimited(t, r.limit), expireAt)
              && t.duration != r.duration && r.gregorian && env.span.NotACode?
  {
    hide Relimited, Retimed, RetimedExpiry, TakeTokens;
  }

  lemma ServeSame(tol: Tolerance, a: Option<Item>, b: Option<Item>, call: Call, env: Env)
    requires AlikeFound(a, b) && Whole(a, call, env)
    ensures var x, y := Serve(tol, a, call, env), Serve(tol, b, call, env);
            && x.answer == y.answer && SameEffects(a, x.effect, y.effect, call.key)
            && ((b.None? || b.value.invalidAt == 0) && (y.effect.Keep? || y.effect.KeepUnsaved?) ==>
                  y.effect.item.invalidAt == 0)
  {
    hide ExistingStep, NewStep, NewToken, ExistingToken, Relimited;
    ErrorsHoldNothing(call.r, env);
    if a.Some? && a.value.value.TokenValue? {
      var t := a.value.value.token;
      TokenSteps(t, b.value.value.token, a.value.expireAt, call.r, env);
      TokenErrors(t, a.value.expireAt, call.r, env);
      if t.limit == call.r.limit || (0 <= t.remaining && 0 <= t.remaining + call.r.limit - t.limit) {
        RelimitedShowsNothing(t, call.r.limit);
      }
    }
  }

  lemma AnswersSame(tol: Tolerance, a: Option<Item>, b: Option<Item>, call: Call, env: Env)
    requires AlikeFound(a, b)
    ensures Serve(tol, a, call, env).answer == Serve(tol, b, call, env).answer
  {
    hide ExistingStep, NewStep, NewToken, ExistingToken;
    if a.Some? && a.value.value.TokenValue? {
      TokenSteps(a.value.value.token, b.value.value.token, a.value.expireAt, call.r, env);
    }
  }

  lemma ErrorsHoldNothing(r: Request, env: Env)
    ensures NewStep(r, env).answer.CalendarError? ==> NewStep(r, env).slot.Empty?
    ensures NewToken(r, env).answer.CalendarError? ==> NewToken(r, env).slot.NoToken?
  {
  }

  lemma LiveLater(a: Option<Item>, b: Option<Item>, before: int, now: int)
    requires Live(a, before) == Live(b, before) && before <= now
    ensures Live(a, now) == Live(b, now)
  {
  }

  lemma MirrorsLater(w: Worker, unbounded: seq<Item>, before: int, now: int)
    requires Mirrors(w, unbounded, before) && before <= now
    ensures Mirrors(w, unbounded, now)
  {
    hide Live;
    forall k
      ensures Live(Find(unbounded, k), now) == Live(Stored(w.store.value, k), now)
    {
      LiveLater(Find(unbounded, k), Stored(w.store.value, k), before, now);
    }
  }

  /** Both lookups find the same, whether the item was still cached or had to be fetched. */
  lemma LookupsAgree(w: Worker, capacity: int, unbounded: seq<Item>, key: string, now: int, stamp: int)
    requires Mirrors(w, unbounded, now)
    ensures var found, got := LookedUp(w, capacity, key, now, stamp), Got(unbounded, key, now);
            AlikeFound(found.item, got.item)
  {
    hide Without, Added;
    FindSomeIn(unbounded, key);
    FindSomeIn(w.items, key);
    assert Live(Find(unbounded, key), now) == Live(Stored(w.store.value, key), now);
  }

  /** After a lookup the small cache still holds nothing but stored items. */
  lemma LookupMirrors(w: Worker, capacity: int, unbounded: seq<Item>, key: string, now: int, stamp: int)
    requires Mirrors(w, unbounded, now)
    ensures Mirrors(Worker(LookedUp(w, capacity, key, now, stamp).items, w.store), Got(unbounded, key, now).items, now)
  {
    hide Got, Added, IsExpired;
    var found, got := LookedUp(w, capacity, key, now, stamp), Got(unbounded, key, now);
    var first := Got(w.items, key, now);
    forall k
      ensures Live(Find(got.items, k), now) == Live(Stored(w.store.value, k), now)
      ensures Find(got.items, k).Some? ==> Find(got.items, k).value.invalidAt == 0
      ensures Find(found.items, k).Some? ==>
                k in w.store.value && Alike(Find(found.items, k).value, w.store.value[k])
    {
      FindGot(unbounded, key, now, k);
      DroppedWasDead(unbounded, key, now);
      FindGot(w.items, key, now, k);
      var stored := StoreGet(w.store.value, key, now, stamp);
      if stored.Some? {
        FindAdded(first.items, stored.value, capacity, k);
      }
    }
  }

  lemma DroppedWasDead(items: seq<Item>, key: string, now: int)
    requires Find(items, key).Some? ==> Find(items, key).value.invalidAt == 0
    ensures Live(Got(items, key, now).item, now) == Live(Find(items, key), now)
  {
  }

  /** What the mirror says of one key. */
  ghost predicate MirrorsAt(items: seq<Item>, store: Table, unbounded: seq<Item>, k: string, now: int) {
    && Live(Find(unbounded, k), now) == Live(Stored(store, k), now)
    && (Find(unbounded, k).Some? ==> Find(unbounded, k).value.invalidAt == 0)
    && (Find(items, k).Some? ==> k in store && Alike(Find(items, k).value, store[k]))
  }

  /** Both get an alike item for the key, and the store the same one or an alike one it has. */
  lemma KeepMirrorsAt(w: Worker, capacity: int, unbounded: seq<Item>, key: string, now: int, x: Effect, y: Effect,
                      k: string)
    requires w.store.Some? && MirrorsAt(w.items, w.store.value, unbounded, k, now)
    requires (x.Keep? && y.Keep?) || (x.KeepUnsaved? && y.KeepUnsaved?)
    requires Alike(x.item, y.item) && x.item.key == key && y.item.invalidAt == 0
    requires x.KeepUnsaved? ==> key in w.store.value && Alike(x.item, w.store.value[key])
    ensures MirrorsAt(ApplyToCache(w.items, capacity, key, x), ApplyToStore(w.store.value, key, x),
                      ApplyToCache(unbounded, 0, key, y), k, now)
  {
    hide Added, Without, Visible;
    FindAdded(w.items, x.item, capacity, k);
    FindAdded(unbounded, y.item, 0, k);
  }

  lemma EraseMirrorsAt(w: Worker, capacity: int, unbounded: seq<Item>, key: string, now: int, x: Effect, k: string)
    requires w.store.Some? && MirrorsAt(w.items, w.store.value, unbounded, k, now) && (x.Erase? || x.Leave?)
    ensures MirrorsAt(ApplyToCache(w.items, capacity, key, x), ApplyToStore(w.store.value, key, x),
                      ApplyToCache(unbounded, 0, key, x), k, now)
  {
    hide Added, Without, Visible;
    FindWithout(w.items, key, k);
    FindWithout(unbounded, key, k);
  }

  lemma MirrorsIff(w: Worker, unbounded: seq<Item>, now: int)
    requires w.store.Some?
    ensures Mirrors(w, unbounded, now) <==>
            WellKept(w.store.value) && forall k :: MirrorsAt(w.items, w.store.value, unbounded, k, now)
  {
    hide Live, Alike, WellKept;
    if WellKept(w.store.value) && forall k :: MirrorsAt(w.items, w.store.value, unbounded, k, now) {
      forall k
        ensures Live(Find(unbounded, k), now) == Live(Stored(w.store.value, k), now)
        ensures Find(unbounded, k).Some? ==> Find(unbounded, k).value.invalidAt == 0
        ensures Find(w.items, k).Some? ==> k in w.store.value && Alike(Find(w.items, k).value, w.store.value[k])
      {
        assert MirrorsAt(w.items, w.store.value, unbounded, k, now);
      }
    }
  }

  /** Writing the same item to both keeps the mirror. */
  lemma EffectMirrors(w: Worker, capacity: int, unbounded: seq<Item>, key: string, now: int, a: Option<Item>,
                      x: Effect, y: Effect)
    requires Mirrors(w, unbounded, now) && SameEffects(a, x, y, key)
    requires y.Keep? || y.KeepUnsaved? ==> y.item.invalidAt == 0
    requires x.KeepUnsaved? ==>
               && Find(unbounded, key).Some? && Alike(Find(unbounded, key).value, y.item)
               && key in w.store.value && Alike(x.item, w.store.value[key])
    ensures Mirrors(Worker(ApplyToCache(w.items, capacity, key, x), Some(ApplyToStore(w.store.value, key, x))),
                    ApplyToCache(unbounded, 0, key, y), now)
  {
    assert w.store.Some?;
    hide Mirrors, MirrorsAt, ApplyToCache, Alike, AlikeFound, Find;
    MirrorsIff(w, unbounded, now);
    var items, store := ApplyToCache(w.items, capacity, key, x), ApplyToStore(w.store.value, key, x);
    forall k
      ensures MirrorsAt(items, store, ApplyToCache(unbounded, 0, key, y), k, now)
    {
      if x.Keep? || x.KeepUnsaved? {
        KeepMirrorsAt(w, capacity, unbounded, key, now, x, y, k);
      } else {
        EraseMirrorsAt(w, capacity, unbounded, key, now, x, k);
      }
    }
    MirrorsIff(Worker(items, Some(store)), ApplyToCache(unbounded, 0, key, y), now);
  }

  lemma HandleMirrors(tol: Tolerance, capacity: int, w: Worker, unbounded: seq<Item>, call: Call, env: Env, stamp: int)
    requires Mirrors(w, unbounded, env.now) && Whole(Got(unbounded, call.key, env.now).item, call, env)
    ensures var x := Handle(tol, capacity, w, call, env, stamp);
            var y := Handle(tol, 0, Worker(unbounded, None), call, env, stamp);
            x.answer == y.answer && Mirrors(x.worker, y.worker.items, env.now)
  {
    hide Serve, Got, LookedUp, ApplyToCache, ApplyToStore, Mirrors, Sound;
    var found, got := LookedUp(w, capacity, call.key, env.now, stamp), Got(unbounded, call.key, env.now);
    UnboundedLookup(unbounded, call.key, env.now, stamp);
    LookupsAgree(w, capacity, unbounded, call.key, env.now, stamp);
    LookupMirrors(w, capacity, unbounded, call.key, env.now, stamp);
    WholeAlike(found.item, got.item, call, env);
    ServeSame(tol, found.item, got.item, call, env);
    MirrorsFacts(Worker(found.items, w.store), got.items, call.key, env.now);
    GotIsFound(unbounded, call.key, env.now);
    var x, y := Serve(tol, found.item, call, env).effect, Serve(tol, got.item, call, env).effect;
    if x.KeepUnsaved? {
      FoundIsStored(w, capacity, unbounded, call.key, env.now, stamp);
    }
    EffectMirrors(Worker(found.items, w.store), capacity, got.items, call.key, env.now, found.item, x, y);
  }

  lemma WholeAlike(a: Option<Item>, b: Option<Item>, call: Call, env: Env)
    requires AlikeFound(a, b) && Whole(b, call, env)
    ensures Whole(a, call, env)
  {
  }

  /** What a lookup finds is what the store holds. */
  lemma FoundIsStored(w: Worker, capacity: int, unbounded: seq<Item>, key: string, now: int, stamp: int)
    requires Mirrors(w, unbounded, now)
    ensures var found := LookedUp(w, capacity, key, now, stamp).item;
            found.Some? ==> key in w.store.value && Alike(found.value, w.store.value[key])
  {
    hide Without, Added;
  }

  lemma UnboundedLookup(unbounded: seq<Item>, key: string, now: int, stamp: int)
    ensures LookedUp(Worker(unbounded, None), 0, key, now, stamp) == Got(unbounded, key, now)
  {
  }

  lemma MirrorsFacts(w: Worker, unbounded: seq<Item>, key: string, now: int)
    requires Mirrors(w, unbounded, now)
    ensures w.store.Some?
    ensures Find(unbounded, key).Some? ==> Find(unbounded, key).value.invalidAt == 0
  {
  }

  lemma GotIsFound(items: seq<Item>, key: string, now: int)
    ensures Got(items, key, now).item == Find(Got(items, key, now).items, key)
  {
    FindGot(items, key, now, key);
  }

  // ----- Whole histories -----

  /** A worker either serves a call or loses its cache to a restart. */
  datatype Tick = Serving(call: Call, env: Env, stamp: int) | Restart

  function After(tol: Tolerance, capacity: int, history: seq<Tick>): Worker {
    if history == [] then Worker([], Some(map[]))
    else
      var w := After(tol, capacity, history[..|history| - 1]);
      match history[|history| - 1]
      case Restart => Worker([], w.store)
      case Serving(call, env, stamp) => Handle(tol, capacity, w, call, env, stamp).worker
  }

  /** The same calls, served from an unbounded cache that is never lost. */
  function AfterUnbounded(tol: Tolerance, history: seq<Tick>): seq<Item> {
    if history == [] then []
    else
      var items := AfterUnbounded(tol, history[..|history| - 1]);
      match history[|history| - 1]
      case Restart => items
      case Serving(call, env, stamp) => Handle(tol, 0, Worker(items, None), call, env, stamp).worker.items
  }

  /** Time does not go back, and every call of the history is the owner's and updates its item whole or
      not at all. */
  ghost predicate WholeHistory(tol: Tolerance, history: seq<Tick>, now: int) {
    && (forall i :: 0 <= i < |history| && history[i].Serving? ==> history[i].env.now <= now)
    && (forall i, j :: 0 <= i < j < |history| && history[i].Serving? && history[j].Serving? ==>
          history[i].env.now <= history[j].env.now)
    && forall i :: 0 <= i < |history| && history[i].Serving? ==>
         var t := history[i];
         Whole(Got(AfterUnbounded(tol, history[..i]), t.call.key, t.env.now).item, t.call, t.env)
  }

  lemma WholeBefore(tol: Tolerance, history: seq<Tick>, now: int)
    requires WholeHistory(tol, history, now) && history != []
    ensures var last := history[|history| - 1];
            WholeHistory(tol, history[..|history| - 1], if last.Serving? then last.env.now else now)
  {
    hide Handle;
    hide Whole;
    var init := history[..|history| - 1];
    assert forall i :: 0 <= i < |init| ==> init[..i] == history[..i];
  }

  lemma {:induction false} HistoryMirrors(tol: Tolerance, capacity: int, history: seq<Tick>, now: int)
    requires WholeHistory(tol, history, now)
    ensures Mirrors(After(tol, capacity, history), AfterUnbounded(tol, history), now)
  {
    hide Handle, Mirrors, WholeHistory;
    if history == [] {
      NothingMirrors(now);
    } else {
      var n := |history| - 1;
      var last, init := history[n], history[..n];
      WholeBefore(tol, history, now);
      match last
      case Restart =>
        HistoryMirrors(tol, capacity, init, now);
        RestartMirrors(After(tol, capacity, init), AfterUnbounded(tol, init), now);
      case Serving(call, env, stamp) =>
        HistoryMirrors(tol, capacity, init, env.now);
        LastIsWhole(tol, history, now);
        HandleMirrors(tol, capacity, After(tol, capacity, init), AfterUnbounded(tol, init), call, env, stamp);
        MirrorsLater(After(tol, capacity, history), AfterUnbounded(tol, history), env.now, now);
    }
  }

  lemma NothingMirrors(now: int)
    ensures Mirrors(Worker([], Some(map[])), [], now)
  {
  }

  lemma RestartMirrors(w: Worker, unbounded: seq<Item>, now: int)
    requires Mirrors(w, unbounded, now)
    ensures Mirrors(Worker([], w.store), unbounded, now)
  {
  }

  lemma LastIsWhole(tol: Tolerance, history: seq<Tick>, now: int)
    requires WholeHistory(tol, history, now) && history != [] && history[|history| - 1].Serving?
    ensures var t, items := history[|history| - 1], AfterUnbounded(tol, history[..|history| - 1]);
            t.env.now <= now && Whole(Got(items, t.call.key, t.env.now).item, t.call, t.env)
  {
    hide Handle, Whole;
  }

  /** A write-through store makes eviction and restart invisible: whatever the cache's capacity and
      however often it is lost, every call is answered as from one unbounded cache. */
  lemma StoreHidesTheCache(tol: Tolerance, capacity: int, history: seq<Tick>, call: Call, env: Env, stamp: int)
    requires WholeHistory(tol, history, env.now)
    ensures Handle(tol, capacity, After(tol, capacity, history), call, env, stamp).answer ==
            Handle(tol, 0, Worker(AfterUnbounded(tol, history), None), call, env, stamp).answer
  {
    hide Serve, LookedUp, Got, Mirrors, WholeHistory, After, AfterUnbounded;
    HistoryMirrors(tol, capacity, history, env.now);
    var w, unbounded := After(tol, capacity, history), AfterUnbounded(tol, history);
    UnboundedLookup(unbounded, call.key, env.now, stamp);
    LookupsAgree(w, capacity, unbounded, call.key, env.now, stamp);
    AnswersSame(tol, LookedUp(w, capacity, call.key, env.now, stamp).item, Got(unbounded, call.key, env.now).item,
                call, env);
  }

  // ----- What the store does not hide -----

  /** Asks a token bucket for its status, with the limit and duration it has. */
  function AskAsIs(key: string, t: Token): Call {
    Call(key, TokenAlgorithm, Request(0, t.limit, t.duration, 0, 0, 0, false, false, false), true)
  }

  lemma HalfUpdateTells(tol: Tolerance, item: Item, call: Call, env: Env)
    requires HalfUpdates(Some(item), call, env) && Serve(tol, Some(item), call, env).effect.KeepUnsaved?
    ensures var c, left := AskAsIs(call.key, item.value.token), Serve(tol, Some(item), call, env).effect.item;
            Serve(tol, Some(left), c, env).answer != Serve(tol, Some(item), c, env).answer
  {
  }

  /** An owner's call that fails half way leaves in the cache what some later call can tell from what
      the store holds, if and only if its limit took more than remained. */
  lemma HalfUpdatesIff(tol: Tolerance, item: Item, call: Call, env: Env)
    requires call.owner && Serve(tol, Some(item), call, env).effect.KeepUnsaved?
    ensures var left := Serve(tol, Some(item), call, env).effect.item;
            (forall c, e :: Serve(tol, Some(left), c, e).answer == Serve(tol, Some(item), c, e).answer) <==>
            !HalfUpdates(Some(item), call, env)
  {
    hide Serve, HalfUpdates;
    var left := Serve(tol, Some(item), call, env).effect.item;
    if HalfUpdates(Some(item), call, env) {
      HalfUpdateTells(tol, item, call, env);
    } else {
      ServeSame(tol, Some(item), Some(item), call, env);
      forall c, e
        ensures Serve(tol, Some(left), c, e).answer == Serve(tol, Some(item), c, e).answer
      {
        AnswersSame(tol, Some(left), Some(item), c, e);
      }
    }
  }

  function AskToken(hits: int, limit: int, duration: int, gregorian: bool): Call {
    Call("a", TokenAlgorithm, Request(hits, limit, duration, 0, 0, 0, gregorian, false, false), true)
  }

  const AT_ZERO := Env(0, 0, NotACode)

  lemma HalfUpdateSteps(tol: Tolerance)
    ensures var a, b, c := AskToken(8, 10, 60000, false), AskToken(1, 1, 99, true), AskToken(0, 10, 60000, false);
            var two := Item("a", TokenValue(Token(UnderLimit, 10, 60000, 2, 0)), 60000, 0);
            var none := Item("a", TokenValue(Token(UnderLimit, 1, 60000, 0, 0)), 60000, 0);
            && Serve(tol, None, a, AT_ZERO).effect == Keep(two)
            && Serve(tol, Some(two), b, AT_ZERO) == Served(CalendarError, KeepUnsaved(none))
            && Serve(tol, Some(two), c, AT_ZERO).answer == Answer(UnderLimit, 10, 2, 60000, 0)
            && Serve(tol, Some(none), c, AT_ZERO).answer == Answer(UnderLimit, 10, 9, 60000, 0)
  {
  }

  lemma OneItem(items: seq<Item>, item: Item, capacity: nat)
    requires (items == [] || items == [item.(value := items[0].value)]) && item.invalidAt == 0 && item.expireAt >= 0
    ensures Added(items, item, capacity) == [item] && Got([item], item.key, 0) == Found([item], Some(item))
  {
    if items != [] {
      assert items[1..] == [] && Without(items, item.key) == [];
    }
    assert [item][1..] == [] && Without([item], item.key) == [];
    assert [item] + [] == [item];
  }

  /** Eight of ten tokens spent, a call with a limit of one and a duration that is no calendar code, and
      a restart: asked again with a limit of ten, the key lost with the cache shows the 2 tokens the
      store knows of, and the one that was kept shows 9. */
  lemma HalfUpdateShows(tol: Tolerance, capacity: nat)
    ensures var a, b, c := AskToken(8, 10, 60000, false), AskToken(1, 1, 99, true), AskToken(0, 10, 60000, false);
            var history := [Serving(a, AT_ZERO, 0), Serving(b, AT_ZERO, 0), Restart];
            var kept := AfterUnbounded(tol, history);
            && Handle(tol, capacity, After(tol, capacity, history), c, AT_ZERO, 0).answer ==
               Answer(UnderLimit, 10, 2, 60000, 0)
            && Handle(tol, 0, Worker(kept, None), c, AT_ZERO, 0).answer == Answer(UnderLimit, 10, 9, 60000, 0)
  {
    var a, b := AskToken(8, 10, 60000, false), AskToken(1, 1, 99, true);
    var two := Item("a", TokenValue(Token(UnderLimit, 10, 60000, 2, 0)), 60000, 0);
    var none := Item("a", TokenValue(Token(UnderLimit, 1, 60000, 0, 0)), 60000, 0);
    var history := [Serving(a, AT_ZERO, 0), Serving(b, AT_ZERO, 0), Restart];
    HalfUpdateSteps(tol);
    hide Serve, Added, Got;
    OneItem([], two, capacity);
    OneItem([], two, 0);
    OneItem([two], none, capacity);
    OneItem([two], none, 0);
    NothingGot("a");
    assert history[..2][..1] == history[..1] && history[..1][..0] == [];
    assert After(tol, capacity, history[..1]) == Worker([two], Some(map["a" := two]));
    assert After(tol, capacity, history[..2]) == Worker([none], Some(map["a" := two]));
    assert AfterUnbounded(tol, history[..1]) == [two];
    assert AfterUnbounded(tol, history[..2]) == [none];
    assert AfterUnbounded(tol, history) == [none];
  }

  lemma NothingGot(key: string)
    ensures Got([], key, 0) == Found([], None)
  {
  }
}
