/**
 The two algorithms as they run: the cached bucket, its item, the cache and the store are updated
 in place, statement by statement, against the functions that say what a call does.
 */
module Algorithms {
  import opened Numbers
  import opened LeakyBucket
  import opened TokenBucket
  import opened Recency
  import opened LruCache
  import opened Serving

  // ----- The leaky bucket -----

  /** Credits the leak since the last credit and rescales the debt it does not repay. */
  method Credit(tol: Tolerance, b: LeakyBucketItem, r: Request, env: Env, now: int, storedRate: Rate, rescale: bool,
                keepStored: bool)
    requires storedRate == StoredRate(b.View())
    requires rescale == Rescale(b.View(), r) && keepStored == KeepStored(b.View(), r)
    modifies b
    ensures var b0 := old(b.View());
            b.View() == b0.(remaining := Rescaled(tol, b0, r, env, now), updatedAt := Max(now, b0.updatedAt))
  {
    hide RateOf, CreditedLeak, SnapToZero;
    ghost var b0 := b.View();
    var creditRate := RequestRate(r, env);
    if keepStored || rescale {
      creditRate := storedRate;
    }
    if now > b.updatedAt {
      b.remaining := b.remaining + CreditedLeak(b.View(), now, creditRate);
      b.updatedAt := now;
    } else {
      NoLeakBackwards(b0, now, creditRate);
    }
    if rescale && SnapToZero(tol, b.remaining) < 0.0 {
      RequestRateHasMillis(r);
      b.remaining := b.remaining * (storedRate.ms / RateOf(r.duration, r.limit).ms);
    }
  }

  /** Brings a bucket up to the moment of a request, before its hits are counted. */
  method Settle(tol: Tolerance, b: LeakyBucketItem, r: Request, env: Env)
    returns (now: int, rate: Rate, wasInDebt: bool, reconfigured: bool)
    requires r.gregorian ==> env.span.Span?
    modifies b
    ensures var b0 := old(b.View());
            && b.View() == Settled(tol, b0, r, env)
            && now == Clock(b0, r, env) && rate == SettledRate(tol, b0, r, env) && wasInDebt == WasInDebt(b0, r)
            && reconfigured == (b0.burst != NewBurst(tol, b0, r, now) || ConfigChanged(b0, r))
  {
    hide RateOf, SnapToZero, DebtAt, Rescaled;
    now := r.createdAt;
    if r.maxWait > 0 || b.remaining < 0.0 {
      now := env.now;
    }
    rate := RequestRate(r, env);
    var requestRate := rate;

    var storedRate := RateOf(b.duration, b.limit);
    var storedUsable := Usable(storedRate);
    var requestUsable := r.limit > 0 && r.duration > 0;
    var configChanged := b.limit != r.limit || b.duration != r.duration;
    var keepStored := (r.gregorian || !requestUsable) && b.remaining < 0.0 && storedUsable;
    var rescale := !r.gregorian && requestUsable && b.remaining < 0.0 && configChanged && storedUsable;
    var burst := RequestBurst(r);
    if DebtAt(tol, b.View(), now) && (burst < 0 || (burst == 0 && !r.reset)) {
      burst := b.burst;
    }
    if keepStored {
      rate := storedRate;
    }
    wasInDebt := b.remaining < 0.0 && !r.reset;
    var burstChanged := b.burst != burst;

    Credit(tol, b, r, env, now, storedRate, rescale, keepStored);

    if burstChanged {
      if SnapToZero(tol, b.remaining) >= 0.0 {
        b.remaining := MaxReal(0.0, b.remaining + (burst - b.burst) as real);
      }
      b.burst := burst;
    }
    if r.reset {
      b.remaining := burst as real;
    }
    b.remaining := SnapToZero(tol, MinReal(b.burst as real, b.remaining));
    if !keepStored || b.remaining >= 0.0 {
      b.limit := r.limit;
      b.duration := r.duration;
      rate := requestRate;
    }
    reconfigured := burstChanged || configChanged;
  }

  lemma NoLeakBackwards(b: Bucket, now: int, rate: Rate)
    requires now <= b.updatedAt
    ensures CreditedLeak(b, now, rate) == 0.0
  {
  }

  lemma RequestRateHasMillis(r: Request)
    requires r.limit > 0 && r.duration > 0
    ensures RateOf(r.duration, r.limit).PerToken? && RateOf(r.duration, r.limit).ms > 0.0
  {
  }

  lemma StatusIsAnswer(tol: Tolerance, b: Bucket, now: int, rate: Rate)
    ensures StatusAnswer(tol, b, now, rate).Answer?
    ensures StatusAnswer(tol, b, now, rate).limit == b.limit
    ensures StatusAnswer(tol, b, now, rate).status == UnderLimit
    ensures StatusAnswer(tol, b, now, rate).retryAfter == 0
  {
    hide FullAt, WholeRate, WholeTokens;
  }

  /** Admits the hits, books them as debt, or refuses them and charges nothing. */
  method TrySchedule(tol: Tolerance, b: LeakyBucketItem, r: Request, env: Env, rate: Rate, wasInDebt: bool,
                     status: Answer)
    returns (rl: Answer, extend: bool)
    requires status == StatusAnswer(tol, b.View(), env.now, rate)
    modifies b
    ensures Decision(b.View(), rl, extend) == ScheduleHits(tol, old(b.View()), r, env, rate, wasInDebt)
    ensures rl.Answer?
  {
    hide WholeTokens, SnapToZero, FullAt, WholeRate, StatusAnswer, Wait;
    StatusIsAnswer(tol, b.View(), env.now, rate);
    rl, extend := status, false;
    if r.hits > b.burst || !Usable(rate) {
      rl := rl.(status := NeverFits);
      return;
    }
    if r.hits <= WholeTokens(tol, b.remaining) {
      b.remaining := SnapToZero(tol, b.remaining - r.hits as real);
      rl := rl.(remaining := SpendableTokens(tol, b.remaining));
      rl := rl.(resetTime := env.now + (rl.limit - rl.remaining) * WholeRate(rate));
      extend := wasInDebt;
      return;
    }
    var wait := Wait(tol, b.View(), r.hits, env.now, rate.ms);
    if wait > Min(r.maxWait, env.ceiling) {
      rl := rl.(status := OverLimit, retryAfter := wait);
      return;
    }
    b.remaining := b.remaining - r.hits as real;
    rl := rl.(status := Scheduled, retryAfter := wait, remaining := 0);
    rl := rl.(resetTime := FullAt(b.View(), rate));
    extend := true;
  }

  /** Counts the hits of a request against a settled bucket. */
  method Charge(tol: Tolerance, b: LeakyBucketItem, r: Request, env: Env, now: int, rate: Rate, wasInDebt: bool)
    returns (rl: Answer, extend: bool)
    requires r.maxWait > 0 ==> now == env.now
    modifies b
    ensures Decision(b.View(), rl, extend) == CountHits(tol, old(b.View()), r, env, now, rate, wasInDebt)
    ensures rl.Answer?
  {
    hide WholeTokens, SnapToZero, FullAt, WholeRate, ScheduleHits, StatusAnswer;
    StatusIsAnswer(tol, b.View(), now, rate);
    rl, extend := StatusAnswer(tol, b.View(), now, rate), false;
    if r.hits == 0 {
      return;
    }
    if r.maxWait > 0 {
      rl, extend := TrySchedule(tol, b, r, env, rate, wasInDebt, rl);
      return;
    }
    if r.hits < 0 && b.remaining < 0.0 {
      extend := true;
      return;
    }
    if r.hits > WholeTokens(tol, b.remaining) {
      rl := rl.(status := OverLimit);
      if r.drain {
        b.remaining := MinReal(b.remaining, 0.0);
        rl := rl.(remaining := 0);
      }
      return;
    }
    b.remaining := SnapToZero(tol, MinReal(b.burst as real, b.remaining - r.hits as real));
    rl := rl.(remaining := WholeTokens(tol, b.remaining));
    rl := rl.(resetTime := now + (rl.limit - rl.remaining) * WholeRate(rate));
    extend := wasInDebt;
  }

  // ----- The cache and the store -----

  /** A store that keeps what it is told, as values. */
  class Store {
    var items: Table

    constructor ()
      ensures items == map[]
    {
      items := map[];
    }

    method OnChange(item: CacheItem)
      modifies this
      ensures items == old(items)[item.key := item.View()]
    {
      items := items[item.key := item.View()];
    }

    method Remove(key: string)
      modifies this
      ensures items == old(items) - {key}
    {
      items := items - {key};
    }

    method Get(key: string, now: int, stamp: int) returns (item: CacheItem?)
      ensures StoreGet(items, key, now, stamp) == if item == null then None else Some(item.View())
      ensures item != null ==>
                && fresh(item) && (item.leaky != null ==> fresh(item.leaky))
                && (item.token != null ==> fresh(item.token))
    {
      var stored := StoreGet(items, key, now, stamp);
      if stored.None? {
        return null;
      }
      item := NewItem(stored.value);
    }
  }

  method NewItem(view: Item) returns (item: CacheItem)
    ensures fresh(item) && item.View() == view && item.key == view.key
    ensures item.leaky != null ==> fresh(item.leaky) && view.value.LeakyValue?
    ensures item.token != null ==> fresh(item.token) && view.value.TokenValue?
  {
    var leaky: LeakyBucketItem? := null;
    var token: TokenBucketItem? := null;
    match view.value {
      case NoValue =>
      case LeakyValue(b) => leaky := new LeakyBucketItem(b);
      case TokenValue(t) => token := new TokenBucketItem(t);
    }
    item := new CacheItem(view.key, leaky, token, view.expireAt, view.invalidAt);
  }

  ghost function View(c: LRUCache, s: Store?): Worker
    reads c, c.ll, Leakies(c.ll), Tokens(c.ll), s
  {
    Worker(c.View(), if s == null then None else Some(s.items))
  }

  /** Looks a key up in the cache, then in the store. */
  method Fetch(c: LRUCache, s: Store?, key: string, now: int, stamp: int) returns (item: CacheItem?)
    requires c.Valid() && (s != null ==> WellKept(s.items))
    modifies c
    ensures c.Valid()
    ensures var found := LookedUp(old(View(c, s)), c.cacheSize, key, now, stamp);
            c.View() == found.items && found.item == if item == null then None else Some(item.View())
    ensures item != null ==> |c.ll| > 0 && c.ll[0] == item && item.key == key
    ensures item != null ==>
              || item in old(c.ll)
              || (&& fresh(item) && (item.leaky != null ==> fresh(item.leaky))
                  && (item.token != null ==> fresh(item.token)))
  {
    hide Got, Added, Items, Linked, Apart;
    item := c.GetItem(key, now);
    ghost var cached := c.View();
    if s != null && item == null {
      item := s.Get(key, now, stamp);
      assert c.View() == cached;
      if item != null {
        assert c.Unshared(item);
        var _ := c.Add(item);
      }
    }
  }

  // ----- Serving a call -----

  /** The items behind the front are untouched by changes to the front one and its bucket. */
  lemma BehindFront(c: LRUCache, item: CacheItem)
    requires c.Valid() && |c.ll| > 0 && c.ll[0] == item
    ensures item.key in c.cache && c.cache[item.key] == item
    ensures forall j :: 0 < j < |c.ll| ==> Separate(item, c.ll[j])
  {
    hide Separate;
  }

  /** Applies a leaky bucket request to the item in front, and moves its expiry as the outcome asks. */
  method UpdateLeaky(tol: Tolerance, c: LRUCache, item: CacheItem, b: LeakyBucketItem, r: Request, env: Env)
    returns (rl: Answer)
    requires c.Valid() && item.key in c.cache && c.cache[item.key] == item && item.leaky == b
    requires r.gregorian ==> env.span.Span?
    modifies item, b
    ensures var b0 := old(b.View());
            && Step(Held(b.View(), item.expireAt), rl) == ExistingStep(tol, b0, old(item.expireAt), r, env)
            && rl.Answer? && item.invalidAt == old(item.invalidAt)
  {
    hide Settled, SettledRate, CountHits, NewBurst, Items, ExtendExpiry, ConfigChanged, RequestDuration, WasInDebt;
    ghost var b0, e0 := b.View(), item.expireAt;
    var duration := RequestDuration(r, env);
    var now, rate, wasInDebt, reconfigured := Settle(tol, b, r, env);
    if r.hits != 0 && !wasInDebt {
      Reexpire(c, item, now + duration);
    }
    ghost var touched := item.expireAt;
    var extend;
    rl, extend := Charge(tol, b, r, env, now, rate, wasInDebt);
    ExtendingTwice(touched, b.View(), now, duration, rate);
    if extend {
      ExtendDebtExpiry(c, item, b, now, duration, rate);
    }
    if wasInDebt && reconfigured && Usable(rate) {
      ExtendDebtExpiry(c, item, b, now, duration, rate);
    }
  }

  lemma ExtendingTwice(expireAt: int, b: Bucket, now: int, duration: int, rate: Rate)
    ensures var extended := ExtendExpiry(expireAt, b, now, duration, rate);
            ExtendExpiry(extended, b, now, duration, rate) == extended
  {
  }

  /** Sets when a cached item expires. */
  method Reexpire(c: LRUCache, item: CacheItem, expireAt: int)
    requires c.Valid() && item.key in c.cache && c.cache[item.key] == item
    modifies item
    ensures item.expireAt == expireAt && item.invalidAt == old(item.invalidAt)
  {
    hide Items;
    var _ := c.UpdateExpiration(item.key, expireAt);
  }

  /** Keeps a key in debt cached until its balance is back at burst. */
  method ExtendDebtExpiry(c: LRUCache, item: CacheItem, b: LeakyBucketItem, now: int, duration: int, rate: Rate)
    requires c.Valid() && item.key in c.cache && c.cache[item.key] == item
    modifies item
    ensures item.expireAt == ExtendExpiry(old(item.expireAt), b.View(), now, duration, rate)
    ensures item.invalidAt == old(item.invalidAt)
  {
    Reexpire(c, item, Max(item.expireAt, Max(now + duration, FullAt(b.View(), rate))));
  }

  // ----- The token bucket -----

  /** Takes on the request's limit, then its duration; a duration that is no calendar code fails
      after the limit was taken on. */
  method Reconfigure(item: CacheItem, t: TokenBucketItem, r: Request, env: Env) returns (ok: bool)
    requires item.token == t
    modifies item, t
    ensures var t1 := Relimited(old(t.View()), r.limit);
            && ok == !(t1.duration != r.duration && r.gregorian && env.span.NotACode?)
            && t.View() == (if ok then Retimed(t1, r, env) else t1)
            && item.expireAt == (if ok then RetimedExpiry(t1, old(item.expireAt), r, env) else old(item.expireAt))
            && item.invalidAt == old(item.invalidAt)
  {
    ok := true;
    if t.limit != r.limit {
      t.remaining := t.remaining + (r.limit - t.limit);
      if t.remaining < 0 {
        t.remaining := 0;
      }
      t.limit := r.limit;
    }
    if t.duration != r.duration {
      var expire := t.createdAt + r.duration;
      if r.gregorian {
        if env.span.NotACode? {
          return false;
        }
        expire := env.now + env.span.left;
      }
      if expire <= r.createdAt {
        expire := r.createdAt + r.duration;
        t.createdAt := r.createdAt;
        t.remaining := t.limit;
      }
      item.expireAt := expire;
      t.duration := r.duration;
    }
  }

  /** Counts hits against a token bucket whose configuration is up to date. */
  method Take(t: TokenBucketItem, r: Request, expireAt: int) returns (rl: Answer)
    modifies t
    ensures var d := TakeTokens(old(t.View()), r);
            t.View() == d.token && rl == Answer(d.status, r.limit, d.token.remaining, expireAt, 0)
  {
    rl := Answer(UnderLimit, r.limit, t.remaining, expireAt, 0);
    if r.hits == 0 {
      if rl.remaining == 0 {
        rl := rl.(status := t.status);
      } else {
        t.status := UnderLimit;
      }
      return;
    }
    if rl.remaining == 0 && r.hits > 0 {
      rl := rl.(status := OverLimit);
      t.status := OverLimit;
      return;
    }
    t.status := UnderLimit;
    if t.remaining == r.hits {
      t.remaining := 0;
      rl := rl.(remaining := 0);
      return;
    }
    if r.hits > t.remaining {
      rl := rl.(status := OverLimit);
      if r.drain {
        t.remaining := 0;
        rl := rl.(remaining := 0);
      }
      return;
    }
    t.remaining := t.remaining - r.hits;
    rl := rl.(remaining := t.remaining);
  }

  /** Applies a token bucket request that is not a reset to a cached item. */
  method UpdateToken(item: CacheItem, t: TokenBucketItem, r: Request, env: Env) returns (rl: Answer)
    requires item.token == t && !r.reset
    modifies item, t
    ensures TokenStep(TokenHeld(t.View(), item.expireAt), rl) ==
            ExistingToken(old(t.View()), old(item.expireAt), r, env)
    ensures item.invalidAt == old(item.invalidAt)
  {
    hide Retimed, RetimedExpiry, TakeTokens;
    var ok := Reconfigure(item, t, r, env);
    if !ok {
      return CalendarError;
    }
    rl := Take(t, r, item.expireAt);
  }

  // ----- Whole calls -----

  /** Rewriting the front item is adding it again. */
  lemma FrontAdded(items: seq<Item>, item: Item, capacity: int)
    requires |items| > 0 && DistinctKeys(items) && items[0].key == item.key
    ensures Added(items, item, capacity) == [item] + items[1..]
    ensures Without(items, item.key) == items[1..]
  {
    hide Find, Without, DistinctKeys, Trim;
    AtPosition(items, 0);
    assert items[..0] + items[1..] == items[1..];
  }

  /** Removing a key and adding it anew is adding it. */
  lemma RemovedThenAdded(items: seq<Item>, item: Item, capacity: nat)
    requires |items| > 0 && DistinctKeys(items) && items[0].key == item.key
    requires capacity > 0 ==> |items| <= capacity
    ensures Added(Without(items, item.key), item, capacity) == Added(items, item, capacity)
  {
    FrontAdded(items, item, capacity);
    FindWithout(items, item.key, item.key);
  }

  /** Caches a new item and, as its owner, tells the store. */
  method AddNew(c: LRUCache, s: Store?, view: Item, owner: bool)
    requires c.Valid()
    modifies c, s
    ensures c.Valid() && c.View() == Added(old(c.View()), view, c.cacheSize)
    ensures s != null ==> s.items == if owner then old(s.items)[view.key := view] else old(s.items)
  {
    hide Items, Added, Linked, Apart;
    ghost var before := c.View();
    var item := NewItem(view);
    assert c.View() == before;
    assert c.Unshared(item);
    var _ := c.Add(item);
    if s != null && owner {
      s.OnChange(item);
    }
  }

  /** Removes an item whose key now wants the other algorithm, or a reset. */
  method Forget(c: LRUCache, s: Store?, key: string)
    requires c.Valid()
    modifies c, s
    ensures c.Valid() && c.View() == Without(old(c.View()), key)
    ensures s != null ==> s.items == old(s.items) - {key}
  {
    hide Items, Without, Linked, Apart;
    c.Remove(key);
    if s != null {
      s.Remove(key);
    }
  }

  /** The first request of a leaky key; one that can never fit, or an error, creates no bucket. */
  method AddLeaky(c: LRUCache, s: Store?, call: Call, env: Env) returns (rl: Answer)
    requires c.Valid()
    modifies c, s
    ensures c.Valid()
    ensures var served := KeepLeaky(call, NewStep(call.r, env), Leave);
            && rl == served.answer
            && c.View() == ApplyToCache(old(c.View()), c.cacheSize, call.key, served.effect)
            && (s != null ==> s.items == ApplyToStore(old(s.items), call.key, served.effect))
  {
    hide Items, Added, Linked, Apart, NewStep;
    var step := NewStep(call.r, env);
    if step.slot.Held? {
      AddNew(c, s, Item(call.key, LeakyValue(step.slot.bucket), step.slot.expireAt, 0), call.owner);
    }
    rl := step.answer;
  }

  method AddToken(c: LRUCache, s: Store?, call: Call, env: Env) returns (rl: Answer)
    requires c.Valid()
    modifies c, s
    ensures c.Valid()
    ensures var served := KeepToken(call, NewToken(call.r, env), Leave);
            && rl == served.answer
            && c.View() == ApplyToCache(old(c.View()), c.cacheSize, call.key, served.effect)
            && (s != null ==> s.items == ApplyToStore(old(s.items), call.key, served.effect))
  {
    hide Items, Added, Linked, Apart, NewToken;
    var step := NewToken(call.r, env);
    if step.slot.TokenHeld? {
      AddNew(c, s, Item(call.key, TokenValue(step.slot.token), step.slot.expireAt, 0), call.owner);
    }
    rl := step.answer;
  }

  lemma ViewOfFront(c: LRUCache, item: CacheItem)
    requires c.Valid() && |c.ll| > 0 && c.ll[0] == item
    ensures DistinctKeys(c.View()) && |c.View()| > 0 && c.View()[0] == item.View()
    ensures c.cacheSize > 0 ==> |c.View()| <= c.cacheSize
  {
    hide Find, Without;
    DropItems(c.ll, 0);
  }

  /** What a new key's effect is where the key held something of the other algorithm. */
  function Instead(effect: Effect): Effect {
    if effect.Leave? then Erase else if effect.KeepUnsaved? then Replace(effect.item) else effect
  }

  /** Forgetting a key and then keeping or leaving it is keeping or erasing it. */
  lemma ForgetThenApply(items: seq<Item>, store: Table, capacity: nat, key: string, effect: Effect)
    requires |items| > 0 && DistinctKeys(items) && items[0].key == key && (capacity > 0 ==> |items| <= capacity)
    requires effect.Leave? || ((effect.Keep? || effect.KeepUnsaved?) && effect.item.key == key)
    ensures ApplyToCache(Without(items, key), capacity, key, effect) ==
            ApplyToCache(items, capacity, key, Instead(effect))
    ensures ApplyToStore(store - {key}, key, effect) == ApplyToStore(store, key, Instead(effect))
  {
    hide Added, Without, Find;
    if effect.Keep? || effect.KeepUnsaved? {
      RemovedThenAdded(items, effect.item, capacity);
    }
  }

  /** A key that held a token bucket starts over as a leaky one. */
  method SwitchToLeaky(c: LRUCache, s: Store?, item: CacheItem, call: Call, env: Env) returns (rl: Answer)
    requires c.Valid() && |c.ll| > 0 && c.ll[0] == item && item.key == call.key
    modifies c, s
    ensures c.Valid()
    ensures var served := KeepLeaky(call, NewStep(call.r, env), Erase);
            && rl == served.answer
            && c.View() == ApplyToCache(old(c.View()), c.cacheSize, call.key, served.effect)
            && (s != null ==> s.items == ApplyToStore(old(s.items), call.key, served.effect))
  {
    hide Items, Added, Without, Linked, Apart, NewStep, ApplyToCache, ApplyToStore;
    ViewOfFront(c, item);
    ForgetThenApply(c.View(), if s == null then map[] else s.items, c.cacheSize, call.key,
                    KeepLeaky(call, NewStep(call.r, env), Leave).effect);
    Forget(c, s, call.key);
    rl := AddLeaky(c, s, call, env);
  }

  method SwitchToToken(c: LRUCache, s: Store?, item: CacheItem, call: Call, env: Env) returns (rl: Answer)
    requires c.Valid() && |c.ll| > 0 && c.ll[0] == item && item.key == call.key
    modifies c, s
    ensures c.Valid()
    ensures var served := KeepToken(call, NewToken(call.r, env), Erase);
            && rl == served.answer
            && c.View() == ApplyToCache(old(c.View()), c.cacheSize, call.key, served.effect)
            && (s != null ==> s.items == ApplyToStore(old(s.items), call.key, served.effect))
  {
    hide Items, Added, Without, Linked, Apart, NewToken, ApplyToCache, ApplyToStore;
    ViewOfFront(c, item);
    ForgetThenApply(c.View(), if s == null then map[] else s.items, c.cacheSize, call.key,
                    KeepToken(call, NewToken(call.r, env), Leave).effect);
    Forget(c, s, call.key);
    rl := AddToken(c, s, call, env);
  }

  /** Updating the item in front leaves the rest of the cache alone. */
  lemma FrontKept(c: LRUCache, item: CacheItem, before: seq<Item>)
    requires c.Valid() && |c.ll| > 0 && c.ll[0] == item
    requires |before| == |c.ll| && DistinctKeys(before) && before[0].key == item.key
    requires forall j :: 0 < j < |c.ll| ==> c.ll[j].View() == before[j]
    ensures c.View() == Added(before, item.View(), c.cacheSize)
  {
    hide Added, Without, Find, Linked, Apart;
    FrontAdded(before, item.View(), c.cacheSize);
    assert c.View() == [item.View()] + before[1..];
  }

  method UpdateCachedLeaky(tol: Tolerance, c: LRUCache, s: Store?, item: CacheItem, b: LeakyBucketItem, call: Call,
                           env: Env)
    returns (rl: Answer)
    requires c.Valid() && |c.ll| > 0 && c.ll[0] == item && item.key == call.key && item.leaky == b
    modifies item, b, s
    ensures var served := ServeLeaky(tol, Some(old(item.View())), call, env);
            && rl == served.answer
            && c.View() == ApplyToCache(old(c.View()), c.cacheSize, call.key, served.effect)
            && (s != null ==> s.items == ApplyToStore(old(s.items), call.key, served.effect))
  {
    hide ExistingStep, Added, Without, Linked, Items;
    if call.r.gregorian && env.span.NotACode? {
      NotACodeFails(tol, b.View(), item.expireAt, call.r, env);
      return CalendarError;
    }
    BehindFront(c, item);
    ViewOfFront(c, item);
    ghost var before := c.View();
    rl := UpdateLeaky(tol, c, item, b, call.r, env);
    assert forall j :: 0 < j < |c.ll| ==> c.ll[j].View() == before[j];
    FrontKept(c, item, before);
    if s != null && call.owner {
      s.OnChange(item);
    }
  }

  lemma NotACodeFails(tol: Tolerance, b: Bucket, expireAt: int, r: Request, env: Env)
    requires r.gregorian && env.span.NotACode?
    ensures ExistingStep(tol, b, expireAt, r, env).answer == CalendarError
  {
  }

  /** A leaky bucket call on a worker. */
  method LeakyBucketCall(tol: Tolerance, c: LRUCache, s: Store?, call: Call, env: Env, stamp: int) returns (rl: Answer)
    requires c.Valid() && (s != null ==> WellKept(s.items)) && call.algorithm == LeakyAlgorithm
    modifies c, c.ll, Leakies(c.ll), s
    ensures c.Valid()
    ensures Reply(View(c, s), rl) == Handle(tol, c.cacheSize, old(View(c, s)), call, env, stamp)
  {
    hide Items, Linked, Apart, LookedUp, ApplyToCache, ApplyToStore, ExistingStep, NewStep, Separate;
    var item := Fetch(c, s, call.key, env.now, stamp);
    if item == null || (item.leaky == null && item.token == null) {
      rl := AddLeaky(c, s, call, env);
    } else if item.leaky == null {
      rl := SwitchToLeaky(c, s, item, call, env);
    } else {
      rl := UpdateCachedLeaky(tol, c, s, item, item.leaky, call, env);
    }
  }

  method UpdateCachedToken(c: LRUCache, s: Store?, item: CacheItem, t: TokenBucketItem, call: Call, env: Env)
    returns (rl: Answer)
    requires c.Valid() && |c.ll| > 0 && c.ll[0] == item && item.key == call.key && item.token == t && item.leaky == null
    requires !call.r.reset
    modifies item, t, s
    ensures var served := ServeToken(Some(old(item.View())), call, env);
            && rl == served.answer
            && c.View() == ApplyToCache(old(c.View()), c.cacheSize, call.key, served.effect)
            && (s != null ==> s.items == ApplyToStore(old(s.items), call.key, served.effect))
  {
    hide ExistingToken, Added, Without, Linked, Items;
    BehindFront(c, item);
    ViewOfFront(c, item);
    ghost var before := c.View();
    rl := UpdateToken(item, t, call.r, env);
    assert forall j :: 0 < j < |c.ll| ==> c.ll[j].View() == before[j];
    FrontKept(c, item, before);
    if s != null && call.owner && rl.Answer? {
      s.OnChange(item);
    }
  }

  /** A token bucket call on a worker. */
  method TokenBucketCall(tol: Tolerance, c: LRUCache, s: Store?, call: Call, env: Env, stamp: int) returns (rl: Answer)
    requires c.Valid() && (s != null ==> WellKept(s.items)) && call.algorithm == TokenAlgorithm
    modifies c, c.ll, Tokens(c.ll), s
    ensures c.Valid()
    ensures Reply(View(c, s), rl) == Handle(tol, c.cacheSize, old(View(c, s)), call, env, stamp)
  {
    hide Items, Linked, Apart, LookedUp, ExistingToken, NewToken, Separate, Added, Without;
    var item := Fetch(c, s, call.key, env.now, stamp);
    if item == null || (item.leaky == null && item.token == null) {
      rl := AddToken(c, s, call, env);
    } else if call.r.reset {
      Forget(c, s, call.key);
      rl := Answer(UnderLimit, call.r.limit, call.r.limit, 0, 0);
    } else if item.leaky != null {
      rl := SwitchToToken(c, s, item, call, env);
    } else {
      rl := UpdateCachedToken(c, s, item, item.token, call, env);
    }
  }
}
