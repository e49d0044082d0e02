/**
 A pool of workers against one sequential cache.
 */
module Sharding {
  import opened LeakyBucket
  import opened Recency
  import opened Serving
  import opened Workers

  // ----- Caches whose keys are distinct and known -----

  ghost predicate Tidy(items: seq<Item>, keys: iset<string>) {
    DistinctKeys(items) && forall item :: item in items ==> item.key in keys
  }

  ghost predicate StoreWellKept(store: Option<Table>) {
    store.Some? ==> WellKept(store.value)
  }

  lemma TidyFront(item: Item, items: seq<Item>, keys: iset<string>)
    requires Tidy(items, keys) && item.key in keys && forall x :: x in items ==> x.key != item.key
    ensures Tidy([item] + items, keys)
  {
    var all := [item] + items;
    forall i, j | 0 <= i < j < |all|
      ensures all[i].key != all[j].key
    {
      assert all[j] == items[j - 1];
    }
  }

  lemma TidyTail(items: seq<Item>, keys: iset<string>)
    requires Tidy(items, keys) && items != []
    ensures Tidy(items[1..], keys) && forall x :: x in items[1..] ==> x.key != items[0].key
  {
  }

  lemma TidyInit(items: seq<Item>, keys: iset<string>)
    requires Tidy(items, keys) && items != []
    ensures Tidy(items[..|items| - 1], keys)
  {
  }

  lemma {:induction false} TidyWithout(items: seq<Item>, key: string, keys: iset<string>)
    requires Tidy(items, keys)
    ensures Tidy(Without(items, key), keys)
    ensures forall x :: x in Without(items, key) <==> x in items && x.key != key
  {
    if items == [] {
    } else {
      TidyTail(items, keys);
      TidyWithout(items[1..], key, keys);
      assert forall x :: x in items <==> x == items[0] || x in items[1..];
      if items[0].key != key {
        TidyFront(items[0], Without(items[1..], key), keys);
      }
    }
  }

  lemma TidyAdded(items: seq<Item>, item: Item, capacity: int, keys: iset<string>)
    requires Tidy(items, keys) && item.key in keys
    ensures Tidy(Added(items, item, capacity), keys)
  {
    hide Tidy;
    if Find(items, item.key).Some? {
      TidyWithout(items, item.key, keys);
      TidyFront(item, Without(items, item.key), keys);
    } else {
      FindNone(items, item.key);
      TidyFront(item, items, keys);
      TidyInit([item] + items, keys);
    }
  }

  lemma TidyGot(items: seq<Item>, key: string, now: int, keys: iset<string>)
    requires Tidy(items, keys)
    ensures Tidy(Got(items, key, now).items, keys)
  {
    TidyWithout(items, key, keys);
    FindSomeIn(items, key);
    if Find(items, key).Some? {
      TidyFront(Find(items, key).value, Without(items, key), keys);
    }
  }

  predicate Writes(effect: Effect) {
    effect.Keep? || effect.KeepUnsaved? || effect.Replace?
  }

  /** What a call writes belongs to its key. */
  lemma ServedKey(tol: Tolerance, found: Option<Item>, call: Call, env: Env)
    ensures var effect := Serve(tol, found, call, env).effect;
            Writes(effect) ==> effect.item.key == call.key && effect.item.value != NoValue
  {
    hide ExistingStep, NewStep;
  }

  lemma TidyExecute(tol: Tolerance, capacity: int, w: Worker, cmd: Command, keys: iset<string>)
    requires Tidy(w.items, keys) && KeyOf(cmd) in keys && WellFormed(cmd) && StoreWellKept(w.store)
    ensures var done := Execute(tol, capacity, w, cmd);
            Tidy(done.worker.items, keys) && StoreWellKept(done.worker.store)
  {
    hide Tidy, Added, Got, Serve;
    match cmd
    case GetRateLimit(call, env, stamp) =>
      TidyLookup(w, capacity, call.key, env.now, stamp, keys);
      var found := LookedUp(w, capacity, call.key, env.now, stamp);
      hide LookedUp;
      ServedKey(tol, found.item, call, env);
      TidyApply(found.items, capacity, call.key, Serve(tol, found.item, call, env).effect, keys);
    case AddCacheItem(_, item) => TidyAdded(w.items, item, capacity, keys);
    case GetCacheItem(key, now) => TidyGot(w.items, key, now, keys);
  }

  lemma TidyLookup(w: Worker, capacity: int, key: string, now: int, stamp: int, keys: iset<string>)
    requires Tidy(w.items, keys) && key in keys && StoreWellKept(w.store)
    ensures Tidy(LookedUp(w, capacity, key, now, stamp).items, keys)
  {
    hide Tidy, Added, Got;
    TidyGot(w.items, key, now, keys);
    if w.store.Some? {
      var stored := StoreGet(w.store.value, key, now, stamp);
      if stored.Some? {
        TidyAdded(Got(w.items, key, now).items, stored.value, capacity, keys);
      }
    }
  }

  lemma TidyApply(items: seq<Item>, capacity: int, key: string, effect: Effect, keys: iset<string>)
    requires Tidy(items, keys) && key in keys
    requires Writes(effect) ==> effect.item.key == key
    ensures Tidy(ApplyToCache(items, capacity, key, effect), keys)
  {
    hide Tidy, Added;
    match effect
    case Leave =>
    case Keep(item) => TidyAdded(items, item, capacity, keys);
    case KeepUnsaved(item) => TidyAdded(items, item, capacity, keys);
    case Replace(item) => TidyAdded(items, item, capacity, keys);
    case Erase => TidyWithout(items, key, keys);
  }

  // ----- Keys stay home -----

  ghost function Home(p: Config, w: nat): iset<string> {
    iset key | p.route(key) == w
  }

  /** Every cached key lives in its own worker's cache, and there once. */
  ghost predicate Homed(p: Config, s: State) {
    StoreWellKept(s.store) && forall w :: 0 <= w < |s.caches| ==> Tidy(s.caches[w], Home(p, w))
  }

  /** Whatever is evicted or expires, no run ever caches a key anywhere but at its worker. */
  lemma {:induction false} KeysStayHome(p: Config, s: State, cmds: seq<Command>)
    requires Homed(p, s) && forall i :: 0 <= i < |cmds| ==> WellFormed(cmds[i])
    ensures Homed(p, RunPool(p, s, cmds).0)
  {
    hide Execute, Tidy, StoreWellKept, WellFormed;
    if cmds == [] {
    } else {
      var n := |cmds| - 1;
      KeysStayHome(p, s, cmds[..n]);
      var before := RunPool(p, s, cmds[..n]).0;
      var w := p.route(KeyOf(cmds[n]));
      if w < |before.caches| {
        TidyExecute(p.tol, p.capacity, Worker(before.caches[w], before.store), cmds[n], Home(p, w));
      }
    }
  }

  // ----- Room for every key -----

  predicate Roomy(capacity: int, keys: set<string>) {
    capacity == 0 || |keys| <= capacity
  }

  ghost function Among(keys: set<string>): iset<string> {
    iset key | key in keys
  }

  /** The keys of one worker. */
  function Mine(p: Config, keys: set<string>, w: nat): set<string> {
    set key | key in keys && p.route(key) == w
  }

  /** Every worker's cache has room for the worker's own keys. */
  ghost predicate Spacious(p: Config, keys: set<string>) {
    forall w :: 0 <= w < p.workers ==> Roomy(p.capacity, Mine(p, keys, w))
  }

  lemma {:induction false} TidyBound(items: seq<Item>, keys: set<string>)
    requires Tidy(items, Among(keys))
    ensures |items| <= |keys|
  {
    if items == [] {
    } else {
      TidyTail(items, Among(keys));
      assert items[0] in items;
      TidyBound(items[1..], keys - {items[0].key});
    }
  }

  lemma AddedFits(items: seq<Item>, item: Item, capacity: int, keys: set<string>)
    requires Tidy(items, Among(keys)) && item.key in keys && Roomy(capacity, keys)
    ensures Added(items, item, capacity) == Added(items, item, 0)
  {
    if Find(items, item.key).None? {
      FindNone(items, item.key);
      TidyFront(item, items, Among(keys));
      TidyBound([item] + items, keys);
    }
  }

  lemma LookupFits(w: Worker, capacity: int, key: string, now: int, stamp: int, keys: set<string>)
    requires Tidy(w.items, Among(keys)) && key in keys && StoreWellKept(w.store) && Roomy(capacity, keys)
    ensures LookedUp(w, capacity, key, now, stamp) == LookedUp(w, 0, key, now, stamp)
  {
    hide Tidy, Added, Got, Roomy;
    TidyGot(w.items, key, now, Among(keys));
    if w.store.Some? {
      var stored := StoreGet(w.store.value, key, now, stamp);
      if stored.Some? {
        AddedFits(Got(w.items, key, now).items, stored.value, capacity, keys);
      }
    }
  }

  /** With room for every key nothing is evicted. */
  lemma ExecuteFits(tol: Tolerance, capacity: int, w: Worker, cmd: Command, keys: set<string>)
    requires Tidy(w.items, Among(keys)) && KeyOf(cmd) in keys && WellFormed(cmd) && StoreWellKept(w.store)
    requires Roomy(capacity, keys)
    ensures Execute(tol, capacity, w, cmd) == Execute(tol, 0, w, cmd)
  {
    hide Tidy, Added, Got, Serve, Roomy;
    match cmd
    case GetRateLimit(call, env, stamp) =>
      LookupFits(w, capacity, call.key, env.now, stamp, keys);
      TidyLookup(w, 0, call.key, env.now, stamp, Among(keys));
      var found := LookedUp(w, 0, call.key, env.now, stamp);
      hide LookedUp;
      ServedKey(tol, found.item, call, env);
      var effect := Serve(tol, found.item, call, env).effect;
      if Writes(effect) {
        AddedFits(found.items, effect.item, capacity, keys);
      }
    case AddCacheItem(_, item) => AddedFits(w.items, item, capacity, keys);
    case GetCacheItem(_, _) =>
  }

  // ----- One cache for all -----

  /** Caches that find the same for a command's key serve it alike. */
  lemma ExecuteAlike(tol: Tolerance, a: seq<Item>, b: seq<Item>, store: Option<Table>, cmd: Command)
    requires Find(a, KeyOf(cmd)) == Find(b, KeyOf(cmd)) && WellFormed(cmd) && StoreWellKept(store)
    ensures var x, y := Execute(tol, 0, Worker(a, store), cmd), Execute(tol, 0, Worker(b, store), cmd);
            && x.outcome == y.outcome && x.worker.store == y.worker.store
            && Find(x.worker.items, KeyOf(cmd)) == Find(y.worker.items, KeyOf(cmd))
  {
    hide Serve, Got, Added;
    match cmd
    case GetRateLimit(call, env, stamp) =>
      LookupAlike(a, b, store, call.key, env.now, stamp);
      var x := LookedUp(Worker(a, store), 0, call.key, env.now, stamp);
      var y := LookedUp(Worker(b, store), 0, call.key, env.now, stamp);
      hide LookedUp;
      ServedKey(tol, x.item, call, env);
      ApplyFinds(x.items, call.key, Serve(tol, x.item, call, env).effect, call.key);
      ApplyFinds(y.items, call.key, Serve(tol, x.item, call, env).effect, call.key);
    case AddCacheItem(_, item) =>
      FindAdded(a, item, 0, item.key);
      FindAdded(b, item, 0, item.key);
    case GetCacheItem(key, now) =>
      FindGot(a, key, now, key);
      FindGot(b, key, now, key);
      GotAlike(a, b, key, now);
  }

  lemma GotAlike(a: seq<Item>, b: seq<Item>, key: string, now: int)
    requires Find(a, key) == Find(b, key)
    ensures Got(a, key, now).item == Got(b, key, now).item
  {
  }

  lemma LookupAlike(a: seq<Item>, b: seq<Item>, store: Option<Table>, key: string, now: int, stamp: int)
    requires Find(a, key) == Find(b, key) && StoreWellKept(store)
    ensures var x, y := LookedUp(Worker(a, store), 0, key, now, stamp), LookedUp(Worker(b, store), 0, key, now, stamp);
            x.item == y.item && Find(x.items, key) == Find(y.items, key)
  {
    hide Got, Added;
    GotAlike(a, b, key, now);
    FindGot(a, key, now, key);
    FindGot(b, key, now, key);
    if store.Some? {
      var stored := StoreGet(store.value, key, now, stamp);
      if stored.Some? {
        FindAdded(Got(a, key, now).items, stored.value, 0, key);
        FindAdded(Got(b, key, now).items, stored.value, 0, key);
      }
    }
  }

  lemma ApplyFinds(items: seq<Item>, key: string, effect: Effect, other: string)
    requires Writes(effect) ==> effect.item.key == key
    ensures Find(ApplyToCache(items, 0, key, effect), other) ==
            if other != key || effect.Leave? then Find(items, other)
            else if effect.Erase? then None
            else Some(effect.item)
  {
    hide Added;
    match effect
    case Leave =>
    case Keep(item) => FindAdded(items, item, 0, other);
    case KeepUnsaved(item) => FindAdded(items, item, 0, other);
    case Replace(item) => FindAdded(items, item, 0, other);
    case Erase => FindWithout(items, key, other);
  }

  /** A command changes no other key's lookup. */
  lemma OthersFind(tol: Tolerance, w: Worker, cmd: Command, other: string)
    requires other != KeyOf(cmd) && WellFormed(cmd) && StoreWellKept(w.store)
    ensures Find(Execute(tol, 0, w, cmd).worker.items, other) == Find(w.items, other)
  {
    hide Serve, Got, Added;
    match cmd
    case GetRateLimit(call, env, stamp) =>
      FindGot(w.items, call.key, env.now, other);
      if w.store.Some? {
        var stored := StoreGet(w.store.value, call.key, env.now, stamp);
        if stored.Some? {
          FindAdded(Got(w.items, call.key, env.now).items, stored.value, 0, other);
        }
      }
      var found := LookedUp(w, 0, call.key, env.now, stamp);
      assert Find(found.items, other) == Find(w.items, other);
      hide LookedUp;
      ServedKey(tol, found.item, call, env);
      ApplyFinds(found.items, call.key, Serve(tol, found.item, call, env).effect, other);
    case AddCacheItem(_, item) => FindAdded(w.items, item, 0, other);
    case GetCacheItem(key, now) => FindGot(w.items, key, now, other);
  }

  /** The pool's lookups, all together, are those of one cache. */
  ghost predicate Refines(p: Config, keys: set<string>, s: State, one: Worker) {
    && |s.caches| == p.workers && s.store == one.store && StoreWellKept(one.store)
    && Tidy(one.items, Among(keys))
    && (forall w :: 0 <= w < |s.caches| ==> Tidy(s.caches[w], Among(Mine(p, keys, w))))
    && forall key :: p.route(key) < |s.caches| && Find(s.caches[p.route(key)], key) == Find(one.items, key)
  }

  lemma StepRefines(p: Config, capacity: int, keys: set<string>, s: State, one: Worker, cmd: Command)
    requires Refines(p, keys, s, one) && KeyOf(cmd) in keys && WellFormed(cmd)
    requires Spacious(p, keys) && Roomy(capacity, keys)
    ensures var x, y := Dispatch(p, s, cmd), Execute(p.tol, capacity, one, cmd);
            x.1 == y.outcome && Refines(p, keys, x.0, y.worker)
  {
    hide Execute, Tidy, Roomy, Among, StoreWellKept;
    var w := p.route(KeyOf(cmd));
    var own := Mine(p, keys, w);
    var mine := Worker(s.caches[w], s.store);
    assert Find(s.caches[w], KeyOf(cmd)) == Find(one.items, KeyOf(cmd));
    ExecuteFits(p.tol, p.capacity, mine, cmd, own);
    ExecuteFits(p.tol, capacity, one, cmd, keys);
    ExecuteAlike(p.tol, s.caches[w], one.items, s.store, cmd);
    AmongKeys(own, KeyOf(cmd));
    AmongKeys(keys, KeyOf(cmd));
    TidyExecute(p.tol, 0, mine, cmd, Among(own));
    TidyExecute(p.tol, 0, one, cmd, Among(keys));
    var x, y := Dispatch(p, s, cmd).0, Execute(p.tol, capacity, one, cmd).worker;
    forall key
      ensures Find(x.caches[p.route(key)], key) == Find(y.items, key)
    {
      if key != KeyOf(cmd) {
        OthersFind(p.tol, mine, cmd, key);
        OthersFind(p.tol, one, cmd, key);
      }
    }
  }

  lemma AmongKeys(keys: set<string>, key: string)
    ensures key in Among(keys) <==> key in keys
  {
  }

  /** Sharding is invisible: while nothing is evicted, a pool answers every command as one sequential
      cache serving them all in the order they were dispatched, and finds the same for every key. */
  lemma {:induction false} ShardingRefinesOneCache(p: Config, capacity: int, keys: set<string>, s: State, one: Worker,
                                                   cmds: seq<Command>)
    requires Refines(p, keys, s, one) && Spacious(p, keys) && Roomy(capacity, keys)
    requires forall i :: 0 <= i < |cmds| ==> KeyOf(cmds[i]) in keys && WellFormed(cmds[i])
    ensures var x, y := RunPool(p, s, cmds), RunAlone(p.tol, capacity, one, cmds);
            x.1 == y.1 && Refines(p, keys, x.0, y.0)
  {
    hide Refines, Roomy, Spacious, Dispatch, Execute, KeyOf, WellFormed;
    if cmds == [] {
    } else {
      var n := |cmds| - 1;
      ShardingRefinesOneCache(p, capacity, keys, s, one, cmds[..n]);
      var x, y := RunPool(p, s, cmds[..n]), RunAlone(p.tol, capacity, one, cmds[..n]);
      StepRefines(p, capacity, keys, x.0, y.0, cmds[n]);
    }
  }

  // ----- Any pool is one cache -----

  /** Every cache holds keys of its own worker only, and each once. */
  ghost predicate Housed(p: Config, keys: set<string>, s: State) {
    && |s.caches| == p.workers && StoreWellKept(s.store)
    && forall w :: 0 <= w < |s.caches| ==> Tidy(s.caches[w], Among(Mine(p, keys, w)))
  }

  /** All the caches, one after another. */
  function Merged(caches: seq<seq<Item>>): seq<Item> {
    if caches == [] then [] else Merged(caches[..|caches| - 1]) + caches[|caches| - 1]
  }

  lemma {:induction false} FindInBoth(a: seq<Item>, b: seq<Item>, key: string)
    ensures Find(a + b, key) == if Find(a, key).Some? then Find(a, key) else Find(b, key)
  {
    if a == [] {
      assert a + b == b;
    } else {
      FindInBoth(a[1..], b, key);
      assert (a + b)[1..] == a[1..] + b;
    }
  }

  lemma TidyJoined(p: Config, keys: set<string>, a: seq<Item>, b: seq<Item>, w: nat)
    requires Tidy(a, Among(keys)) && (forall x :: x in a ==> p.route(x.key) < w)
    requires Tidy(b, Among(Mine(p, keys, w)))
    ensures Tidy(a + b, Among(keys)) && forall x :: x in a + b ==> p.route(x.key) < w + 1
  {
    var all := a + b;
    forall i, j | 0 <= i < j < |all|
      ensures all[i].key != all[j].key
    {
      assert i < |a| ==> all[i] in a;
      assert j >= |a| ==> all[j] in b;
      assert i >= |a| ==> all[i] == b[i - |a|] && all[j] == b[j - |a|];
    }
  }

  lemma {:induction false} MergedIsTidy(p: Config, keys: set<string>, caches: seq<seq<Item>>)
    requires forall w :: 0 <= w < |caches| ==> Tidy(caches[w], Among(Mine(p, keys, w)))
    ensures var all := Merged(caches);
            Tidy(all, Among(keys)) && forall x :: x in all ==> p.route(x.key) < |caches|
  {
    if caches == [] {
    } else {
      hide Tidy;
      var n := |caches| - 1;
      MergedIsTidy(p, keys, caches[..n]);
      TidyJoined(p, keys, Merged(caches[..n]), caches[n], n);
    }
  }

  lemma {:induction false} MergedFinds(p: Config, keys: set<string>, caches: seq<seq<Item>>, key: string)
    requires forall w :: 0 <= w < |caches| ==> Tidy(caches[w], Among(Mine(p, keys, w)))
    ensures Find(Merged(caches), key) == if p.route(key) < |caches| then Find(caches[p.route(key)], key) else None
  {
    if caches == [] {
    } else {
      var n := |caches| - 1;
      MergedFinds(p, keys, caches[..n], key);
      FindInBoth(Merged(caches[..n]), caches[n], key);
      FindSomeIn(caches[n], key);
      MergedIsTidy(p, keys, caches[..n]);
      FindSomeIn(Merged(caches[..n]), key);
    }
  }

  /** So a pool whose keys are at home, a loaded one say, is one cache as well. */
  lemma HousedRefines(p: Config, keys: set<string>, s: State)
    requires Routed(p) && Housed(p, keys, s)
    ensures Refines(p, keys, s, Worker(Merged(s.caches), s.store))
  {
    hide Tidy, Merged, Find;
    MergedIsTidy(p, keys, s.caches);
    forall key
      ensures Find(s.caches[p.route(key)], key) == Find(Merged(s.caches), key)
    {
      MergedFinds(p, keys, s.caches, key);
    }
  }

  /** A new pool is an empty cache. */
  lemma NewPoolRefines(p: Config, keys: set<string>, store: Option<Table>)
    requires Routed(p) && StoreWellKept(store)
    ensures Refines(p, keys, State(seq(p.workers, _ => []), store), Worker([], store))
  {
  }
}
