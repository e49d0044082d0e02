/**
 Saving a pool's caches and loading them into another pool, possibly of another size.
 */
module Snapshot {
  import opened Recency
  import opened Workers
  import opened Sharding

  ghost predicate InSome(caches: seq<seq<Item>>, item: Item) {
    exists w :: 0 <= w < |caches| && item in caches[w]
  }

  /** Every cached item was sent once, in any order. */
  ghost predicate Saved(caches: seq<seq<Item>>, saved: seq<Item>) {
    DistinctKeys(saved) && forall item :: item in saved <==> InSome(caches, item)
  }

  /** Each item is added at its worker, in the order they arrive. */
  function Loaded(q: Config, caches: seq<seq<Item>>, items: seq<Item>): (r: seq<seq<Item>>)
    ensures |r| == |caches|
  {
    if items == [] then caches
    else
      var last := items[|items| - 1];
      var before := Loaded(q, caches, items[..|items| - 1]);
      var w := q.route(last.key);
      if w < |caches| then before[w := Added(before[w], last, q.capacity)] else before
  }

  function NewCaches(q: Config): (r: seq<seq<Item>>)
    ensures |r| == q.workers && forall w :: 0 <= w < |r| ==> r[w] == []
  {
    seq(q.workers, _ => [])
  }

  /** The items one worker is sent. */
  function Share(q: Config, items: seq<Item>, w: nat): seq<Item> {
    if items == [] then []
    else
      var last := items[|items| - 1];
      Share(q, items[..|items| - 1], w) + if q.route(last.key) == w then [last] else []
  }

  function LoadedOne(capacity: int, items: seq<Item>): seq<Item> {
    if items == [] then [] else Added(LoadedOne(capacity, items[..|items| - 1]), items[|items| - 1], capacity)
  }

  // ----- One worker's share -----

  lemma {:induction false} ShareIn(q: Config, items: seq<Item>, w: nat)
    ensures forall x :: x in Share(q, items, w) <==> x in items && q.route(x.key) == w
  {
    if items == [] {
    } else {
      var n := |items| - 1;
      ShareIn(q, items[..n], w);
      assert forall x :: x in items <==> x in items[..n] || x == items[n];
    }
  }

  lemma {:induction false} ShareDistinct(q: Config, items: seq<Item>, w: nat)
    requires DistinctKeys(items)
    ensures DistinctKeys(Share(q, items, w))
  {
    if items == [] {
    } else {
      var n := |items| - 1;
      ShareDistinct(q, items[..n], w);
      ShareIn(q, items[..n], w);
    }
  }

  lemma {:induction false} LoadedShare(q: Config, items: seq<Item>, w: nat)
    requires w < q.workers && Routed(q)
    ensures Loaded(q, NewCaches(q), items)[w] == LoadedOne(q.capacity, Share(q, items, w))
  {
    hide Added;
    if items == [] {
    } else {
      var n := |items| - 1;
      LoadedShare(q, items[..n], w);
      var before := Share(q, items[..n], w);
      if q.route(items[n].key) == w {
        assert (before + [items[n]])[..|before|] == before;
      } else {
        assert before + [] == before;
      }
    }
  }

  lemma FindIff(items: seq<Item>, key: string, item: Item)
    requires DistinctKeys(items)
    ensures Find(items, key) == Some(item) <==> item in items && item.key == key
  {
    FindSomeIn(items, key);
    FindNone(items, key);
  }

  lemma {:induction false} LoadedIsTidy(capacity: int, items: seq<Item>, keys: iset<string>)
    requires forall x :: x in items ==> x.key in keys
    ensures Tidy(LoadedOne(capacity, items), keys)
    ensures capacity > 0 ==> |LoadedOne(capacity, items)| <= capacity
  {
    if items == [] {
    } else {
      hide Tidy;
      var init, last := items[..|items| - 1], items[|items| - 1];
      LoadedIsTidy(capacity, init, keys);
      TidyAdded(LoadedOne(capacity, init), last, capacity, keys);
      WithoutShrinks(LoadedOne(capacity, init), last.key);
    }
  }

  lemma {:induction false} WithoutShrinks(items: seq<Item>, key: string)
    ensures |Without(items, key)| <= |items|
    ensures Find(items, key).Some? ==> |Without(items, key)| < |items|
  {
    if items == [] {
    } else {
      WithoutShrinks(items[1..], key);
    }
  }

  /** With room, a worker ends up with exactly what it was sent. */
  lemma {:induction false} LoadedFits(capacity: int, items: seq<Item>)
    requires DistinctKeys(items) && (capacity == 0 || |items| <= capacity)
    ensures var r := LoadedOne(capacity, items); |r| == |items| && forall x :: x in r <==> x in items
  {
    if items == [] {
    } else {
      var n := |items| - 1;
      LoadedFits(capacity, items[..n]);
      FindNone(LoadedOne(capacity, items[..n]), items[n].key);
      assert forall x :: x in items <==> x in items[..n] || x == items[n];
    }
  }

  function KeySet(items: seq<Item>): set<string> {
    set x | x in items :: x.key
  }

  lemma {:induction false} KeySetSize(items: seq<Item>)
    ensures |KeySet(items)| <= |items|
  {
    if items == [] {
    } else {
      KeySetSize(items[1..]);
      assert forall x :: x in items <==> x == items[0] || x in items[1..];
      assert KeySet(items) == KeySet(items[1..]) + {items[0].key};
    }
  }

  ghost predicate FindSame(a: seq<Item>, b: seq<Item>) {
    forall key :: Find(a, key) == Find(b, key)
  }

  /** A worker finds all it was sent exactly when it has room for it. */
  lemma LoadedFindsIff(capacity: nat, items: seq<Item>)
    requires DistinctKeys(items)
    ensures FindSame(LoadedOne(capacity, items), items) <==> (capacity == 0 || |items| <= capacity)
  {
    var r := LoadedOne(capacity, items);
    LoadedIsTidy(capacity, items, Among(KeySet(items)));
    hide LoadedOne, Find;
    if capacity == 0 || |items| <= capacity {
      LoadedFits(capacity, items);
      forall key
        ensures Find(r, key) == Find(items, key)
      {
        SameItemsFindSame(r, items, key);
      }
    }
    if FindSame(r, items) {
      forall x | x in items
        ensures x.key in KeySet(r)
      {
        FindIff(items, x.key, x);
        FindIff(r, x.key, x);
      }
      TidyBound(items, KeySet(r));
      KeySetSize(r);
    }
  }

  lemma SameItemsFindSame(a: seq<Item>, b: seq<Item>, key: string)
    requires DistinctKeys(a) && DistinctKeys(b) && forall x :: x in a <==> x in b
    ensures Find(a, key) == Find(b, key)
  {
    FindSomeIn(a, key);
    FindSomeIn(b, key);
    if Find(a, key).Some? {
      FindIff(b, key, Find(a, key).value);
    } else if Find(b, key).Some? {
      FindIff(a, key, Find(b, key).value);
    }
  }

  // ----- The whole pool -----

  /** What a pool finds for a key. */
  function PoolLookup(p: Config, caches: seq<seq<Item>>, key: string): Option<Item> {
    if p.route(key) < |caches| then Find(caches[p.route(key)], key) else None
  }

  lemma SavedLookup(p: Config, s: State, saved: seq<Item>, key: string)
    requires Homed(p, s) && Routed(p) && |s.caches| == p.workers && Saved(s.caches, saved)
    ensures PoolLookup(p, s.caches, key) == Find(saved, key)
  {
    var mine := s.caches[p.route(key)];
    assert Tidy(mine, Home(p, p.route(key)));
    FindSomeIn(saved, key);
    FindSomeIn(mine, key);
    if Find(saved, key).Some? {
      var x := Find(saved, key).value;
      HomedAt(p, s, x);
      FindIff(mine, key, x);
    } else if Find(mine, key).Some? {
      FindIff(saved, key, Find(mine, key).value);
    }
  }

  lemma HomedAt(p: Config, s: State, item: Item)
    requires Homed(p, s) && Routed(p) && |s.caches| == p.workers && InSome(s.caches, item)
    ensures item in s.caches[p.route(item.key)]
  {
    var w :| 0 <= w < |s.caches| && item in s.caches[w];
    assert Tidy(s.caches[w], Home(p, w));
  }

  lemma LoadedLookup(q: Config, saved: seq<Item>, key: string)
    requires Routed(q)
    ensures PoolLookup(q, Loaded(q, NewCaches(q), saved), key) ==
            Find(LoadedOne(q.capacity, Share(q, saved, q.route(key))), key)
  {
    LoadedShare(q, saved, q.route(key));
  }

  lemma ShareLookup(q: Config, saved: seq<Item>, key: string)
    requires DistinctKeys(saved)
    ensures Find(Share(q, saved, q.route(key)), key) == Find(saved, key)
  {
    var share := Share(q, saved, q.route(key));
    ShareIn(q, saved, q.route(key));
    ShareDistinct(q, saved, q.route(key));
    FindSomeIn(share, key);
    FindSomeIn(saved, key);
    if Find(share, key).Some? {
      FindIff(saved, key, Find(share, key).value);
    } else if Find(saved, key).Some? {
      FindIff(share, key, Find(saved, key).value);
    }
  }

  lemma ForeignFindsNothing(q: Config, saved: seq<Item>, capacity: int, w: nat, key: string)
    requires q.route(key) != w
    ensures Find(Share(q, saved, w), key) == None && Find(LoadedOne(capacity, Share(q, saved, w)), key) == None
  {
    ShareIn(q, saved, w);
    FindNone(Share(q, saved, w), key);
    LoadedFrom(capacity, Share(q, saved, w), key);
  }

  lemma {:induction false} LoadedFrom(capacity: int, items: seq<Item>, key: string)
    requires Find(items, key).None?
    ensures Find(LoadedOne(capacity, items), key).None?
  {
    hide Added, Find;
    if items != [] {
      var n := |items| - 1;
      FindNone(items, key);
      FindNone(items[..n], key);
      LoadedFrom(capacity, items[..n], key);
      FindAdded(LoadedOne(capacity, items[..n]), items[n], capacity, key);
    } else {
      FindNone([], key);
    }
  }

  /** Each worker of the new pool has room for its share. */
  ghost predicate Room(q: Config, saved: seq<Item>) {
    q.capacity == 0 || forall w :: 0 <= w < q.workers ==> |Share(q, saved, w)| <= q.capacity
  }

  /** Saving a pool and loading a new one, of any size, preserves every lookup exactly when no
      worker is sent more than its cache holds. */
  lemma LoadRestoresIff(p: Config, s: State, q: Config, saved: seq<Item>)
    requires Homed(p, s) && Routed(p) && |s.caches| == p.workers && Saved(s.caches, saved)
    requires Routed(q) && q.capacity >= 0
    ensures (forall key :: PoolLookup(q, Loaded(q, NewCaches(q), saved), key) == PoolLookup(p, s.caches, key)) <==>
            Room(q, saved)
  {
    hide Homed, PoolLookup, Loaded, LoadedOne, Share, Find;
    var loaded := Loaded(q, NewCaches(q), saved);
    forall key
      ensures PoolLookup(p, s.caches, key) == Find(Share(q, saved, q.route(key)), key)
      ensures PoolLookup(q, loaded, key) == Find(LoadedOne(q.capacity, Share(q, saved, q.route(key))), key)
    {
      SavedLookup(p, s, saved, key);
      ShareLookup(q, saved, key);
      LoadedLookup(q, saved, key);
    }
    if Room(q, saved) {
      forall key
        ensures PoolLookup(q, loaded, key) == PoolLookup(p, s.caches, key)
      {
        ShareDistinct(q, saved, q.route(key));
        LoadedFindsIff(q.capacity, Share(q, saved, q.route(key)));
        assert Find(LoadedOne(q.capacity, Share(q, saved, q.route(key))), key) ==
               Find(Share(q, saved, q.route(key)), key);
      }
    }
    if (forall key :: PoolLookup(q, loaded, key) == PoolLookup(p, s.caches, key)) && q.capacity != 0 {
      forall w | 0 <= w < q.workers
        ensures |Share(q, saved, w)| <= q.capacity
      {
        ShareFound(q, saved, w);
      }
    }
  }

  lemma ShareFound(q: Config, saved: seq<Item>, w: nat)
    requires DistinctKeys(saved) && w < q.workers && q.capacity > 0
    requires forall key :: Find(LoadedOne(q.capacity, Share(q, saved, q.route(key))), key) ==
                           Find(Share(q, saved, q.route(key)), key)
    ensures |Share(q, saved, w)| <= q.capacity
  {
    hide LoadedOne, Share, Find;
    ShareDistinct(q, saved, w);
    forall key
      ensures Find(LoadedOne(q.capacity, Share(q, saved, w)), key) == Find(Share(q, saved, w), key)
    {
      if q.route(key) != w {
        ForeignFindsNothing(q, saved, q.capacity, w, key);
      }
    }
    LoadedFindsIff(q.capacity, Share(q, saved, w));
  }
}
