/**
 What a call writes to the cache and what the store hears of it: only owners report, a key that changes
 algorithm starts anew, and an item that a store stamped is asked for again.
 */
module WriteThrough {
  import opened LeakyBucket
  import opened TokenBucket
  import opened Recency
  import opened Serving

  /** What the call finds belongs to the other algorithm. */
  predicate OtherAlgorithm(found: Option<Item>, call: Call) {
    && Sound(found, call.key)
    && if call.algorithm == LeakyAlgorithm then found.value.value.TokenValue? else found.value.value.LeakyValue?
  }

  /** The call throws away what it finds: it is of the other algorithm, or the call resets a token bucket. */
  predicate Discards(found: Option<Item>, call: Call) {
    || OtherAlgorithm(found, call)
    || (call.algorithm == TokenAlgorithm && call.r.reset && Sound(found, call.key))
  }

  // ----- What is served -----

  /** A call that finds the other algorithm's bucket is served as if it found nothing, unless it resets. */
  lemma SwitchStartsAnew(tol: Tolerance, found: Option<Item>, call: Call, env: Env)
    requires OtherAlgorithm(found, call) && !(call.algorithm == TokenAlgorithm && call.r.reset)
    ensures Serve(tol, found, call, env).answer == Serve(tol, None, call, env).answer
    ensures var e, e' := Serve(tol, found, call, env).effect, Serve(tol, None, call, env).effect;
            && (e'.Leave? ==> e == Erase)
            && (e'.Keep? ==> e == e')
            && (e'.KeepUnsaved? ==> e == Replace(e'.item))
            && !e'.Erase? && !e'.Replace?
  {
    hide NewStep, NewToken;
  }

  /** Resetting a token bucket shows a full one and forgets it. */
  lemma ResetErases(tol: Tolerance, found: Option<Item>, call: Call, env: Env)
    requires call.algorithm == TokenAlgorithm && call.r.reset && Sound(found, call.key)
    ensures Serve(tol, found, call, env) == Served(Answer(UnderLimit, call.r.limit, call.r.limit, 0, 0), Erase)
  {
  }

  /** Otherwise a token call is one step of its bucket. A new item is written for what an unknown key comes to;
      a known one is rewritten with its new bucket and expiry, and reported unless the call failed. */
  lemma TokenServed(tol: Tolerance, found: Option<Item>, call: Call, env: Env)
    requires call.algorithm == TokenAlgorithm && !OtherAlgorithm(found, call)
    requires !(call.r.reset && Sound(found, call.key))
    ensures var served := Serve(tol, found, call, env);
            if Sound(found, call.key) then
              var item := found.value;
              var step := ExistingToken(item.value.token, item.expireAt, call.r, env);
              && step.slot.TokenHeld? && served.answer == step.answer
              && var item' := Item(call.key, TokenValue(step.slot.token), step.slot.expireAt, item.invalidAt);
                 served.effect == if step.answer.CalendarError? || !call.owner then KeepUnsaved(item') else Keep(item')
            else
              var step := NewToken(call.r, env);
              && served.answer == step.answer
              && (step.slot.NoToken? ==> served.effect == Leave)
              && (step.slot.TokenHeld? ==>
                    var item := Item(call.key, TokenValue(step.slot.token), step.slot.expireAt, 0);
                    served.effect == if call.owner then Keep(item) else KeepUnsaved(item))
  {
    hide NewToken, Relimited, Retimed, RetimedExpiry, TakeTokens;
  }

  /** And a leaky call one of its. A call that fails leaves everything alone. */
  lemma LeakyServed(tol: Tolerance, found: Option<Item>, call: Call, env: Env)
    requires call.algorithm == LeakyAlgorithm && !OtherAlgorithm(found, call)
    ensures var served := Serve(tol, found, call, env);
            if Sound(found, call.key) then
              var item := found.value;
              var step := ExistingStep(tol, item.value.bucket, item.expireAt, call.r, env);
              && step.slot.Held? && served.answer == step.answer
              && var item' := Item(call.key, LeakyValue(step.slot.bucket), step.slot.expireAt, item.invalidAt);
                 served.effect ==
                 if step.answer.CalendarError? then Leave else if call.owner then Keep(item') else KeepUnsaved(item')
            else
              var step := NewStep(call.r, env);
              && served.answer == step.answer
              && (step.slot.Empty? ==> served.effect == Leave)
              && (step.slot.Held? ==>
                    var item := Item(call.key, LeakyValue(step.slot.bucket), step.slot.expireAt, 0);
                    served.effect == if call.owner then Keep(item) else KeepUnsaved(item))
  {
    hide NewStep, Settled, SettledRate, CountHits, NewExpiry;
  }

  // ----- What the store hears -----

  lemma StoreAfter(tol: Tolerance, capacity: int, w: Worker, call: Call, env: Env, stamp: int)
    requires w.store.Some?
    ensures var found := LookedUp(w, capacity, call.key, env.now, stamp).item;
            Handle(tol, capacity, w, call, env, stamp).worker.store ==
            Some(ApplyToStore(w.store.value, call.key, Serve(tol, found, call, env).effect))
  {
    hide Serve, LookedUp, ApplyToCache, ApplyToStore;
  }

  /** A call by a node that does not own the key saves nothing: it removes the key's item exactly if it discards
      what it finds, and otherwise leaves the store alone. */
  lemma OthersSaveNothing(tol: Tolerance, capacity: int, w: Worker, call: Call, env: Env, stamp: int)
    requires w.store.Some? && !call.owner
    ensures var found := LookedUp(w, capacity, call.key, env.now, stamp).item;
            Handle(tol, capacity, w, call, env, stamp).worker.store ==
            Some(if Discards(found, call) then w.store.value - {call.key} else w.store.value)
  {
    hide LookedUp, Handle, Serve;
    var found := LookedUp(w, capacity, call.key, env.now, stamp).item;
    StoreAfter(tol, capacity, w, call, env, stamp);
    EffectOf(tol, found, call, env);
    if OtherAlgorithm(found, call) && !(call.algorithm == TokenAlgorithm && call.r.reset) {
      SwitchStartsAnew(tol, found, call, env);
      EffectOf(tol, None, call, env);
    } else if Discards(found, call) {
      ResetErases(tol, found, call, env);
    }
  }

  /** What kind of effect a call that discards nothing has. */
  lemma EffectOf(tol: Tolerance, found: Option<Item>, call: Call, env: Env)
    ensures var e := Serve(tol, found, call, env).effect;
            !Discards(found, call) ==> !e.Erase? && !e.Replace? && (!call.owner ==> !e.Keep?)
    ensures var e := Serve(tol, found, call, env).effect;
            e.Keep? || e.KeepUnsaved? || e.Replace? ==> e.item.key == call.key
  {
    hide NewStep, ExistingStep, NewToken, ExistingToken;
  }

  /** Once an owner's call has been answered, cache and store hold the same for the key; or the cache holds
      nothing and the store nothing that lives. */
  lemma OwnersSave(tol: Tolerance, capacity: nat, w: Worker, call: Call, env: Env, stamp: int)
    requires w.store.Some? && call.owner && WellKept(w.store.value)
    requires Find(w.items, call.key).Some? ==> Find(w.items, call.key).value.value != NoValue
    ensures var reply := Handle(tol, capacity, w, call, env, stamp);
            && reply.worker.store.Some?
            && var cached, store := Find(reply.worker.items, call.key), reply.worker.store.value;
            reply.answer.Answer? ==>
              || (cached.Some? && call.key in store && store[call.key] == cached.value)
              || (cached.None? && (call.key !in store || store[call.key].expireAt < env.now))
  {
    hide Serve, Got, Added, Without;
    var found := LookedUp(w, capacity, call.key, env.now, stamp);
    var served := Serve(tol, found.item, call, env);
    FindGot(w.items, call.key, env.now, call.key);
    var got := Got(w.items, call.key, env.now);
    var stored := StoreGet(w.store.value, call.key, env.now, stamp);
    if stored.Some? {
      FindAdded(got.items, stored.value, capacity, call.key);
    }
    FindSomeIn(w.items, call.key);
    AnsweredEffect(tol, found.item, call, env);
    if served.effect.Keep? {
      FindAdded(found.items, served.effect.item, capacity, call.key);
    }
    FindWithout(found.items, call.key, call.key);
  }

  /** An owner's call that is answered either reports what it wrote, or removes the key, or found nothing and
      wrote nothing. */
  lemma AnsweredEffect(tol: Tolerance, found: Option<Item>, call: Call, env: Env)
    requires call.owner
    ensures var served := Serve(tol, found, call, env);
            served.answer.Answer? ==>
              || (served.effect.Keep? && served.effect.item.key == call.key) || served.effect.Erase?
              || (served.effect.Leave? && !Sound(found, call.key))
  {
    hide NewStep, ExistingStep, NewToken, ExistingToken;
  }

  // ----- Asking the store again -----

  /** What a miss fetches is cached, with the store's stamp; a hit changes nothing but the order. */
  lemma FetchedIsCached(w: Worker, capacity: nat, key: string, now: int, stamp: int)
    requires w.store.Some? && WellKept(w.store.value)
    ensures var found := LookedUp(w, capacity, key, now, stamp);
            && Find(found.items, key) == found.item
            && (Got(w.items, key, now).item.None? && found.item.Some? ==>
                  key in w.store.value && found.item.value == w.store.value[key].(invalidAt := stamp))
  {
    hide Added, Without;
    FindGot(w.items, key, now, key);
    var stored := StoreGet(w.store.value, key, now, stamp);
    if stored.Some? {
      FindAdded(Got(w.items, key, now).items, stored.value, capacity, key);
    }
  }

  /** Up to the moment an item is stamped with, it is served from the cache; after it, whatever is cached, the
      store is asked again. An item with no stamp is served until it expires. */
  lemma StampDecides(w: Worker, capacity: int, key: string, now: int, stamp: int)
    requires w.store.Some? && Find(w.items, key).Some? && now <= Find(w.items, key).value.expireAt
    ensures var item, found := Find(w.items, key).value, LookedUp(w, capacity, key, now, stamp).item;
            found == if item.invalidAt == 0 || now <= item.invalidAt then Some(item)
                     else StoreGet(w.store.value, key, now, stamp)
  {
    hide Added, Without;
  }
}
