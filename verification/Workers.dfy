/**
 The pool of workers: each owns the keys whose hash falls in its range, keeps them in its own cache
 and serves its commands one after another; all share one store. Sharding is invisible.
 */
module Workers {
  import opened LeakyBucket
  import opened Recency
  import opened Serving
  import opened HashRange

  datatype Command =
    | GetRateLimit(call: Call, env: Env, stamp: int)
    | AddCacheItem(key: string, item: Item)
    | GetCacheItem(key: string, now: int)

  /** NoWorker is an index out of range. */
  datatype Outcome = Limited(answer: Answer) | Existed(before: bool) | Fetched(item: Option<Item>) | NoWorker

  function KeyOf(cmd: Command): string {
    if cmd.GetRateLimit? then cmd.call.key else cmd.key
  }

  datatype Done = Done(worker: Worker, outcome: Outcome)

  /** What one worker does with a command. */
  function Execute(tol: Tolerance, capacity: int, w: Worker, cmd: Command): Done {
    match cmd
    case GetRateLimit(call, env, stamp) =>
      var reply := Handle(tol, capacity, w, call, env, stamp);
      Done(reply.worker, Limited(reply.answer))
    case AddCacheItem(_, item) =>
      Done(Worker(Added(w.items, item, capacity), w.store), Existed(Find(w.items, item.key).Some?))
    case GetCacheItem(key, now) =>
      var got := Got(w.items, key, now);
      Done(Worker(got.items, w.store), Fetched(got.item))
  }

  /** How a pool is set up: who serves a key, and how much each worker's cache holds. */
  datatype Config = Config(tol: Tolerance, capacity: int, workers: nat, route: string -> nat)

  ghost predicate Routed(p: Config) {
    forall key :: p.route(key) < p.workers
  }

  function CacheSize(configured: nat): nat {
    if configured == 0 then 50_000 else configured
  }

  function ConfigOf(tol: Tolerance, cacheSize: nat, workers: nat, hash: string -> nat): Config
    requires 1 <= workers <= SPACE
  {
    Config(tol, CacheSize(CacheSize(cacheSize) / workers), workers, key => WorkerIndex(hash(key), workers))
  }

  /** A pool of a power of two of workers finds one for every key, whatever the hash. */
  lemma PowersOfTwoAreRouted(tol: Tolerance, cacheSize: nat, workers: nat, hash: string -> nat)
    requires 1 <= workers <= SPACE && IsPow2(workers) && forall key :: hash(key) < SPACE
    ensures Routed(ConfigOf(tol, cacheSize, workers, hash))
  {
    hide WorkerIndex, IsPow2;
    EveryHashHasWorkerIff(workers);
  }

  /** Every worker's cache, and the store they share. */
  datatype State = State(caches: seq<seq<Item>>, store: Option<Table>)

  function Dispatch(p: Config, s: State, cmd: Command): (State, Outcome) {
    var w := p.route(KeyOf(cmd));
    if w >= |s.caches| then (s, NoWorker)
    else
      var done := Execute(p.tol, p.capacity, Worker(s.caches[w], s.store), cmd);
      (State(s.caches[w := done.worker.items], done.worker.store), done.outcome)
  }

  // ----- What commands do -----

  /** Adding an item says whether its key was cached, expired or not, and leaves it there, in front. */
  lemma AddMeans(tol: Tolerance, capacity: nat, w: Worker, key: string, item: Item)
    ensures var done := Execute(tol, capacity, w, AddCacheItem(key, item));
            && done.outcome == Existed(exists x :: x in w.items && x.key == item.key)
            && done.worker.store == w.store && done.worker.items != [] && done.worker.items[0] == item
  {
    FindNone(w.items, item.key);
    FindSomeIn(w.items, item.key);
  }

  /** Getting an item returns the cached one unless it has expired or is stale, and then it is the most recent;
      otherwise the key is no longer cached. The store is not asked. */
  lemma GetMeans(tol: Tolerance, capacity: int, w: Worker, key: string, now: int)
    ensures var done := Execute(tol, capacity, w, GetCacheItem(key, now));
            var cached := Find(w.items, key);
            var live := cached.Some? && !IsExpired(cached.value, now);
            && done.worker.store == w.store
            && done.outcome == Fetched(if live then cached else None)
            && (live ==> done.worker.items != [] && done.worker.items[0] == cached.value)
            && (!live ==> Find(done.worker.items, key) == None)
  {
    FindWithout(w.items, key, key);
  }

  /** A command whose key has no worker is answered so, and changes nothing; any other is answered by one. */
  lemma NoWorkerIff(p: Config, s: State, cmd: Command)
    ensures var after := Dispatch(p, s, cmd);
            && (after.1 == NoWorker <==> p.route(KeyOf(cmd)) >= |s.caches|)
            && (after.1 == NoWorker ==> after.0 == s)
  {
    hide Handle, Added, Got;
  }

  /** The workers share the configured size, or by default 50,000: each gets an equal part, and together they
      hold at most that, short of it by less than the number of workers. With more workers than that, each gets
      the default. */
  lemma CapacityIsShared(tol: Tolerance, cacheSize: nat, workers: nat, hash: string -> nat)
    requires 1 <= workers <= SPACE
    ensures var size, p := if cacheSize == 0 then 50_000 else cacheSize, ConfigOf(tol, cacheSize, workers, hash);
            && p.workers == workers && p.tol == tol
            && (workers <= size ==> 1 <= p.capacity && workers * p.capacity <= size < workers * p.capacity + workers)
            && (workers > size ==> p.capacity == 50_000)
            && forall key :: p.route(key) == WorkerIndex(hash(key), workers)
  {
    hide WorkerIndex;
    ShareOf(if cacheSize == 0 then 50_000 else cacheSize, workers);
  }

  lemma ShareOf(size: nat, workers: nat)
    requires workers >= 1
    ensures var q := size / workers;
            && (workers <= size ==> 1 <= q && workers * q <= size < workers * q + workers)
            && (workers > size ==> q == 0)
  {
    if workers <= size {
      StepFits(size, workers);
    }
  }

  // ----- Runs -----

  /** Every command and how it was answered. */
  type Log = seq<(Command, Outcome)>

  function RunPool(p: Config, s: State, cmds: seq<Command>): (r: (State, Log))
    ensures |r.0.caches| == |s.caches|
  {
    if cmds == [] then (s, [])
    else
      var last := cmds[|cmds| - 1];
      var before := RunPool(p, s, cmds[..|cmds| - 1]);
      var now := Dispatch(p, before.0, last);
      (now.0, before.1 + [(last, now.1)])
  }

  /** The same for one worker on its own. */
  function RunAlone(tol: Tolerance, capacity: int, w: Worker, cmds: seq<Command>): (Worker, Log) {
    if cmds == [] then (w, [])
    else
      var last := cmds[|cmds| - 1];
      var before := RunAlone(tol, capacity, w, cmds[..|cmds| - 1]);
      var now := Execute(tol, capacity, before.0, last);
      (now.worker, before.1 + [(last, now.outcome)])
  }

  /** The commands of one worker, in their order. */
  function Own(p: Config, cmds: seq<Command>, w: nat): seq<Command> {
    if cmds == [] then []
    else
      var last := cmds[|cmds| - 1];
      Own(p, cmds[..|cmds| - 1], w) + if p.route(KeyOf(last)) == w then [last] else []
  }

  function OwnLog(p: Config, log: Log, w: nat): Log {
    if log == [] then []
    else
      var last := log[|log| - 1];
      OwnLog(p, log[..|log| - 1], w) + if p.route(KeyOf(last.0)) == w then [last] else []
  }

  // ----- A command touches its own key only -----

  predicate WellFormed(cmd: Command) {
    cmd.AddCacheItem? ==> cmd.item.key == cmd.key
  }

  function StoredIn(store: Option<Table>, key: string): Option<Item> {
    if store.Some? && key in store.value then Some(store.value[key]) else None
  }

  predicate SameStored(a: Option<Table>, b: Option<Table>, key: string) {
    a.Some? == b.Some? && StoredIn(a, key) == StoredIn(b, key)
  }

  /** The outcome and the cache depend on nothing in the store but the command's key. */
  lemma StoreByKey(tol: Tolerance, capacity: int, items: seq<Item>, a: Option<Table>, b: Option<Table>, cmd: Command)
    requires SameStored(a, b, KeyOf(cmd))
    ensures var x, y := Execute(tol, capacity, Worker(items, a), cmd), Execute(tol, capacity, Worker(items, b), cmd);
            && x.outcome == y.outcome && x.worker.items == y.worker.items
            && SameStored(x.worker.store, y.worker.store, KeyOf(cmd))
  {
    hide Serve, Got, Added, ApplyToCache;
    if cmd.GetRateLimit? {
      SameLookup(items, a, b, capacity, cmd.call.key, cmd.env.now, cmd.stamp);
    }
  }

  lemma SameLookup(items: seq<Item>, a: Option<Table>, b: Option<Table>, capacity: int, key: string, now: int,
                   stamp: int)
    requires SameStored(a, b, key)
    ensures LookedUp(Worker(items, a), capacity, key, now, stamp) ==
            LookedUp(Worker(items, b), capacity, key, now, stamp)
  {
    hide Got, Added;
  }

  lemma OthersStay(tol: Tolerance, capacity: int, w: Worker, cmd: Command, other: string)
    requires other != KeyOf(cmd)
    ensures SameStored(Execute(tol, capacity, w, cmd).worker.store, w.store, other)
  {
    hide Serve, LookedUp, Added, Got, ApplyToCache;
  }

  // ----- Interleaving -----

  /** A worker of the pool and a worker alone: the same cache, and the same stored for its keys. */
  ghost predicate Follows(p: Config, s: State, alone: Worker, w: nat) {
    && w < |s.caches| && s.caches[w] == alone.items
    && forall key :: p.route(key) == w ==> SameStored(s.store, alone.store, key)
  }

  /** In every interleaving a worker behaves as if alone with its own commands: other workers'
      commands change neither its cache, nor its answers, nor what the store holds for its keys. */
  lemma {:induction false} WorkersAreIndependent(p: Config, s: State, cmds: seq<Command>, w: nat)
    requires w < |s.caches|
    ensures var pool := RunPool(p, s, cmds);
            var alone := RunAlone(p.tol, p.capacity, Worker(s.caches[w], s.store), Own(p, cmds, w));
            Follows(p, pool.0, alone.0, w) && OwnLog(p, pool.1, w) == alone.1
  {
    if cmds == [] {
      SameStoredRefl(s.store);
    } else {
      hide RunPool, RunAlone, Own, OwnLog, Dispatch, Execute, Follows;
      var n := |cmds| - 1;
      var rest, cmd := cmds[..n], cmds[n];
      assert rest + [cmd] == cmds;
      WorkersAreIndependent(p, s, rest, w);
      var before := RunPool(p, s, rest);
      var alone := RunAlone(p.tol, p.capacity, Worker(s.caches[w], s.store), Own(p, rest, w));
      RunPoolExtends(p, s, rest, cmd);
      OwnExtends(p, rest, cmd, before.1, Dispatch(p, before.0, cmd).1, w);
      if p.route(KeyOf(cmd)) == w {
        OwnStep(p, before.0, alone.0, cmd, w);
        RunAloneExtends(p.tol, p.capacity, Worker(s.caches[w], s.store), Own(p, rest, w), cmd);
      } else {
        OtherStep(p, before.0, alone.0, cmd, w);
      }
    }
  }

  lemma RunPoolExtends(p: Config, s: State, cmds: seq<Command>, cmd: Command)
    ensures var before := RunPool(p, s, cmds);
            var now := Dispatch(p, before.0, cmd);
            RunPool(p, s, cmds + [cmd]) == (now.0, before.1 + [(cmd, now.1)])
  {
    hide Dispatch;
    assert (cmds + [cmd])[..|cmds|] == cmds;
  }

  lemma SameStoredRefl(store: Option<Table>)
    ensures forall key :: SameStored(store, store, key)
  {
  }

  lemma OwnExtends(p: Config, cmds: seq<Command>, cmd: Command, log: Log, outcome: Outcome, w: nat)
    ensures Own(p, cmds + [cmd], w) == if p.route(KeyOf(cmd)) == w then Own(p, cmds, w) + [cmd] else Own(p, cmds, w)
    ensures OwnLog(p, log + [(cmd, outcome)], w) ==
            if p.route(KeyOf(cmd)) == w then OwnLog(p, log, w) + [(cmd, outcome)] else OwnLog(p, log, w)
  {
    assert (cmds + [cmd])[..|cmds|] == cmds;
    assert (log + [(cmd, outcome)])[..|log|] == log;
  }

  lemma RunAloneExtends(tol: Tolerance, capacity: int, w: Worker, cmds: seq<Command>, cmd: Command)
    ensures var before := RunAlone(tol, capacity, w, cmds);
            var now := Execute(tol, capacity, before.0, cmd);
            RunAlone(tol, capacity, w, cmds + [cmd]) == (now.worker, before.1 + [(cmd, now.outcome)])
  {
    hide Execute;
    assert (cmds + [cmd])[..|cmds|] == cmds;
  }

  lemma OwnStep(p: Config, s: State, alone: Worker, cmd: Command, w: nat)
    requires Follows(p, s, alone, w) && p.route(KeyOf(cmd)) == w
    ensures var x, y := Dispatch(p, s, cmd), Execute(p.tol, p.capacity, alone, cmd);
            Follows(p, x.0, y.worker, w) && x.1 == y.outcome
  {
    hide Execute, SameStored;
    StoreByKey(p.tol, p.capacity, alone.items, s.store, alone.store, cmd);
    var x, y := Execute(p.tol, p.capacity, Worker(s.caches[w], s.store), cmd), Execute(p.tol, p.capacity, alone, cmd);
    forall key | p.route(key) == w
      ensures SameStored(x.worker.store, y.worker.store, key)
    {
      if key != KeyOf(cmd) {
        OthersStay(p.tol, p.capacity, Worker(s.caches[w], s.store), cmd, key);
        OthersStay(p.tol, p.capacity, alone, cmd, key);
        SameStoredChain(x.worker.store, s.store, alone.store, y.worker.store, key);
      }
    }
  }

  lemma SameStoredChain(a: Option<Table>, b: Option<Table>, c: Option<Table>, d: Option<Table>, key: string)
    requires SameStored(a, b, key) && SameStored(b, c, key) && SameStored(d, c, key)
    ensures SameStored(a, d, key)
  {
  }

  lemma OtherStep(p: Config, s: State, alone: Worker, cmd: Command, w: nat)
    requires Follows(p, s, alone, w) && p.route(KeyOf(cmd)) != w
    ensures Follows(p, Dispatch(p, s, cmd).0, alone, w)
  {
    hide Execute, SameStored;
    var v := p.route(KeyOf(cmd));
    var store := Dispatch(p, s, cmd).0.store;
    if v < |s.caches| {
      forall key | p.route(key) == w
        ensures SameStored(store, alone.store, key)
      {
        OthersStay(p.tol, p.capacity, Worker(s.caches[v], s.store), cmd, key);
        SameStoredRefl(alone.store);
        SameStoredChain(store, s.store, alone.store, alone.store, key);
      }
    }
  }

  /** Two interleavings that agree on a worker's own order leave it with the same cache and give its
      callers the same answers. */
  lemma InterleavingIsInvisible(p: Config, s: State, a: seq<Command>, b: seq<Command>, w: nat)
    requires w < |s.caches| && Own(p, a, w) == Own(p, b, w)
    ensures var x, y := RunPool(p, s, a), RunPool(p, s, b);
            && OwnLog(p, x.1, w) == OwnLog(p, y.1, w)
            && Follows(p, x.0, Worker(y.0.caches[w], y.0.store), w)
  {
    hide RunPool, RunAlone;
    WorkersAreIndependent(p, s, a, w);
    WorkersAreIndependent(p, s, b, w);
  }
}
