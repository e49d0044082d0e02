/**
 The pool as it runs: commands change one worker's cache, Store drains every cache in whatever order
 the workers and their maps give, Load fills them.
 */
module WorkerPool {
  import opened LeakyBucket
  import opened Recency
  import opened Serving
  import opened Workers
  import opened Sharding
  import opened Snapshot

  // ----- What is left to send -----

  function Total(caches: seq<seq<Item>>): nat {
    if caches == [] then 0 else |caches[0]| + Total(caches[1..])
  }

  lemma {:induction false} TotalDrops(caches: seq<seq<Item>>, w: nat, items: seq<Item>)
    requires w < |caches| && |items| < |caches[w]|
    ensures Total(caches[w := items]) < Total(caches)
  {
    if w > 0 {
      TotalDrops(caches[1..], w - 1, items);
      assert caches[w := items][1..] == caches[1..][w - 1 := items];
    } else {
      assert caches[w := items][1..] == caches[1..];
    }
  }

  ghost predicate NoneOf(items: seq<Item>, key: string) {
    forall x :: x in items ==> x.key != key
  }

  /** Every cached item has been sent or is left to send, and none is sent twice. */
  ghost predicate Sending(p: Config, caches: seq<seq<Item>>, rest: seq<seq<Item>>, out: seq<Item>) {
    && |rest| == |caches|
    && (forall w :: 0 <= w < |rest| ==> Tidy(rest[w], Home(p, w)))
    && DistinctKeys(out)
    && (forall x :: InSome(caches, x) <==> x in out || InSome(rest, x))
    && forall x :: InSome(rest, x) ==> NoneOf(out, x.key)
  }

  lemma SendOne(p: Config, caches: seq<seq<Item>>, rest: seq<seq<Item>>, out: seq<Item>, w: nat, i: nat)
    requires Sending(p, caches, rest, out) && w < |rest| && i < |rest[w]|
    ensures Sending(p, caches, rest[w := rest[w][..i] + rest[w][i + 1..]], out + [rest[w][i]])
  {
    hide NoneOf;
    var item, left := rest[w][i], rest[w][..i] + rest[w][i + 1..];
    var rest' := rest[w := left];
    Dropped(p, rest, w, i);
    assert InSome(rest, item);
    forall x | InSome(rest', x)
      ensures NoneOf(out + [item], x.key)
    {
      assert NoneOf(out, x.key);
      NoneOfExtends(out, item, x.key);
    }
    assert NoneOf(out, item.key);
    DistinctExtends(out, item);
    assert forall x :: x in out + [item] <==> x in out || x == item;
  }

  lemma NoneOfExtends(items: seq<Item>, item: Item, key: string)
    requires NoneOf(items, key) && item.key != key
    ensures NoneOf(items + [item], key)
  {
  }

  lemma DistinctExtends(items: seq<Item>, item: Item)
    requires DistinctKeys(items) && NoneOf(items, item.key)
    ensures DistinctKeys(items + [item])
  {
  }

  lemma Dropped(p: Config, rest: seq<seq<Item>>, w: nat, i: nat)
    requires (forall v :: 0 <= v < |rest| ==> Tidy(rest[v], Home(p, v))) && w < |rest| && i < |rest[w]|
    ensures var rest' := rest[w := rest[w][..i] + rest[w][i + 1..]];
            && (forall v :: 0 <= v < |rest'| ==> Tidy(rest'[v], Home(p, v)))
            && (forall x :: InSome(rest', x) <==> InSome(rest, x) && x.key != rest[w][i].key)
            && forall x :: InSome(rest, x) && x.key == rest[w][i].key ==> x == rest[w][i]
  {
    var rest' := rest[w := rest[w][..i] + rest[w][i + 1..]];
    DroppedHere(rest[w], i, Home(p, w));
    forall x | InSome(rest, x)
      ensures x.key == rest[w][i].key ==> x == rest[w][i]
      ensures x.key != rest[w][i].key ==> InSome(rest', x)
    {
      var v :| 0 <= v < |rest| && x in rest[v];
      assert Tidy(rest[v], Home(p, v)) && Tidy(rest[w], Home(p, w));
      if v != w {
        assert x in rest'[v];
      } else if x.key != rest[w][i].key {
        assert x in rest'[w];
      }
    }
    forall x | InSome(rest', x)
      ensures InSome(rest, x) && x.key != rest[w][i].key
    {
      var v :| 0 <= v < |rest'| && x in rest'[v];
      assert Tidy(rest[v], Home(p, v)) && Tidy(rest[w], Home(p, w));
      assert x in rest[v];
    }
  }

  lemma DroppedHere(items: seq<Item>, i: nat, keys: iset<string>)
    requires Tidy(items, keys) && i < |items|
    ensures var left := items[..i] + items[i + 1..];
            && Tidy(left, keys)
            && (forall x :: x in left <==> x in items && x.key != items[i].key)
            && forall x :: x in items && x.key == items[i].key ==> x == items[i]
  {
    AtPosition(items, i);
    TidyWithout(items, items[i].key, keys);
  }

  // ----- The pool -----

  class WorkerPool {
    const p: Config
    var caches: seq<seq<Item>>
    var store: Option<Table>

    function View(): State
      reads this
    {
      State(caches, store)
    }

    ghost predicate Valid()
      reads this
    {
      Routed(p) && |caches| == p.workers && Homed(p, View())
    }

    constructor (p: Config, store: Option<Table>)
      requires Routed(p) && StoreWellKept(store)
      ensures Valid() && this.p == p && View() == State(NewCaches(p), store)
    {
      this.p, this.store, this.caches := p, store, NewCaches(p);
    }

    method RateLimit(call: Call, env: Env, stamp: int) returns (answer: Answer)
      requires Valid()
      modifies this
      ensures Valid()
      ensures (View(), Limited(answer)) == Dispatch(p, old(View()), GetRateLimit(call, env, stamp))
    {
      hide Handle, Homed, Routed;
      RoutedAt(p, call.key);
      KeysStayHomeStep(p, View(), GetRateLimit(call, env, stamp));
      var w := p.route(call.key);
      var reply := Handle(p.tol, p.capacity, Worker(caches[w], store), call, env, stamp);
      caches, store, answer := caches[w := reply.worker.items], reply.worker.store, reply.answer;
    }

    method Add(key: string, item: Item) returns (existed: bool)
      requires Valid() && item.key == key
      modifies this`caches
      ensures Valid()
      ensures (View(), Existed(existed)) == Dispatch(p, old(View()), AddCacheItem(key, item))
    {
      hide Homed, Routed, Added;
      RoutedAt(p, key);
      KeysStayHomeStep(p, View(), AddCacheItem(key, item));
      var w := p.route(key);
      existed := Find(caches[w], item.key).Some?;
      caches := caches[w := Added(caches[w], item, p.capacity)];
    }

    method Get(key: string, now: int) returns (item: Option<Item>)
      requires Valid()
      modifies this`caches
      ensures Valid()
      ensures (View(), Fetched(item)) == Dispatch(p, old(View()), GetCacheItem(key, now))
    {
      hide Homed, Routed, Got;
      RoutedAt(p, key);
      KeysStayHomeStep(p, View(), GetCacheItem(key, now));
      var w := p.route(key);
      var got := Got(caches[w], key, now);
      item := got.item;
      caches := caches[w := got.items];
    }

    /** Whichever worker is next, and whichever of its items its map gives next. */
    method Store() returns (out: seq<Item>)
      requires Valid()
      ensures Saved(caches, out)
    {
      hide Tidy;
      var rest := caches;
      out := [];
      while exists w :: 0 <= w < |rest| && rest[w] != []
        invariant Sending(p, caches, rest, out)
        decreases Total(rest)
      {
        var w :| 0 <= w < |rest| && rest[w] != [];
        var i :| 0 <= i < |rest[w]|;
        SendOne(p, caches, rest, out, w, i);
        TotalDrops(rest, w, rest[w][..i] + rest[w][i + 1..]);
        out := out + [rest[w][i]];
        rest := rest[w := rest[w][..i] + rest[w][i + 1..]];
      }
    }

    method Load(items: seq<Item>)
      requires Valid()
      modifies this`caches
      ensures Valid() && caches == Loaded(p, old(caches), items)
    {
      hide Homed, Routed, Added;
      assert items[..|items|] == items;
      for n := 0 to |items|
        invariant Valid() && caches == Loaded(p, old(caches), items[..n])
      {
        var item := items[n];
        RoutedAt(p, item.key);
        KeysStayHomeStep(p, View(), AddCacheItem(item.key, item));
        assert items[..n + 1][..n] == items[..n];
        var w := p.route(item.key);
        caches := caches[w := Added(caches[w], item, p.capacity)];
      }
    }
  }

  lemma RoutedAt(p: Config, key: string)
    requires Routed(p)
    ensures p.route(key) < p.workers
  {
  }

  lemma KeysStayHomeStep(p: Config, s: State, cmd: Command)
    requires Homed(p, s) && WellFormed(cmd)
    ensures Homed(p, Dispatch(p, s, cmd).0)
  {
    hide Dispatch, Homed;
    KeysStayHome(p, s, [cmd]);
    RunPoolExtends(p, s, [], cmd);
    assert [] + [cmd] == [cmd];
  }

  /** A pool saved and loaded into a new pool, of any size, finds what it did exactly when there is
      room for it. */
  method SaveAndLoad(a: WorkerPool, q: Config) returns (b: WorkerPool, saved: seq<Item>)
    requires a.Valid() && Routed(q) && q.capacity >= 0
    ensures fresh(b) && b.Valid() && b.p == q && Saved(a.caches, saved)
    ensures (forall key :: PoolLookup(q, b.caches, key) == PoolLookup(a.p, a.caches, key)) <==> Room(q, saved)
  {
    hide Homed, PoolLookup, Loaded, Routed;
    saved := a.Store();
    assert StoreWellKept(a.store) by {
      WellKeptStore(a.p, a.View());
    }
    b := new WorkerPool(q, a.store);
    b.Load(saved);
    LoadRestoresIff(a.p, a.View(), q, saved);
  }

  lemma WellKeptStore(p: Config, s: State)
    requires Homed(p, s)
    ensures StoreWellKept(s.store)
  {
  }
}
