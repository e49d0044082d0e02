/**
 The LRU cache as it is kept: a map from key to list element and a list in order of use, updated in
 place, against the pure recency sequence.
 */
module LruCache {
  import opened LeakyBucket
  import opened TokenBucket
  import opened Recency

  class LeakyBucketItem {
    var limit: int
    var duration: int
    var remaining: real
    var updatedAt: int
    var burst: int

    constructor (b: Bucket)
      ensures View() == b
    {
      limit, duration, remaining, updatedAt, burst := b.limit, b.duration, b.remaining, b.updatedAt, b.burst;
    }

    function View(): Bucket
      reads this
    {
      Bucket(limit, duration, remaining, updatedAt, burst)
    }
  }

  class TokenBucketItem {
    var status: Status
    var limit: int
    var duration: int
    var remaining: int
    var createdAt: int

    constructor (t: Token)
      ensures View() == t
    {
      status, limit, duration, remaining, createdAt := t.status, t.limit, t.duration, t.remaining, t.createdAt;
    }

    function View(): Token
      reads this
    {
      Token(status, limit, duration, remaining, createdAt)
    }
  }

  /** A cached item. Its value is the leaky bucket, the token bucket, or missing. */
  class CacheItem {
    const key: string
    const leaky: LeakyBucketItem?
    const token: TokenBucketItem?
    var expireAt: int
    var invalidAt: int

    constructor (key: string, leaky: LeakyBucketItem?, token: TokenBucketItem?, expireAt: int, invalidAt: int)
      ensures this.key == key && this.leaky == leaky && this.token == token
      ensures this.expireAt == expireAt && this.invalidAt == invalidAt
    {
      this.key, this.leaky, this.token, this.expireAt, this.invalidAt := key, leaky, token, expireAt, invalidAt;
    }

    function View(): Item
      reads this, leaky, token
    {
      Item(key,
           if leaky != null then LeakyValue(leaky.View())
           else if token != null then TokenValue(token.View())
           else NoValue,
           expireAt, invalidAt)
    }

    predicate IsExpired(now: int)
      reads this
    {
      (invalidAt != 0 && invalidAt < now) || expireAt < now
    }
  }

  ghost function Leakies(ll: seq<CacheItem>): set<LeakyBucketItem?> {
    set x | x in ll :: x.leaky
  }

  ghost function Tokens(ll: seq<CacheItem>): set<TokenBucketItem?> {
    set x | x in ll :: x.token
  }

  ghost function Items(ll: seq<CacheItem>): (items: seq<Item>)
    reads ll, Leakies(ll), Tokens(ll)
    ensures |items| == |ll|
    ensures forall i :: 0 <= i < |ll| ==> items[i] == ll[i].View()
  {
    seq(|ll|, i requires 0 <= i < |ll| reads ll, Leakies(ll), Tokens(ll) => ll[i].View())
  }

  /** Items that share neither key nor bucket. */
  ghost predicate Separate(a: CacheItem, b: CacheItem) {
    && a.key != b.key
    && (a.leaky == null || a.leaky != b.leaky)
    && (a.token == null || a.token != b.token)
  }

  ghost predicate Apart(ll: seq<CacheItem>) {
    forall i, j :: 0 <= i < j < |ll| ==> Separate(ll[i], ll[j])
  }

  /** The map and the list hold the same items, under their own keys. */
  ghost predicate Linked(cache: map<string, CacheItem>, ll: seq<CacheItem>) {
    && (forall i :: 0 <= i < |ll| ==> ll[i].key in cache && cache[ll[i].key] == ll[i])
    && (forall k :: k in cache ==> cache[k].key == k && cache[k] in ll)
  }

  function Dropped<T>(s: seq<T>, i: nat): seq<T>
    requires i < |s|
  {
    s[..i] + s[i + 1..]
  }

  lemma DropLinked(cache: map<string, CacheItem>, ll: seq<CacheItem>, i: nat)
    requires Linked(cache, ll) && Apart(ll) && i < |ll|
    ensures Apart(Dropped(ll, i)) && Linked(cache - {ll[i].key}, Dropped(ll, i))
  {
    hide Separate;
    var rest := Dropped(ll, i);
    forall k | k in cache && k != ll[i].key
      ensures cache[k] in rest
    {
      var j :| 0 <= j < |ll| && ll[j] == cache[k];
      assert rest[if j < i then j else j - 1] == cache[k];
    }
    forall j | 0 <= j < |rest|
      ensures rest[j].key in cache - {ll[i].key} && cache[rest[j].key] == rest[j]
    {
      OtherKey(ll, i, if j < i then j else j + 1);
    }
  }

  lemma OtherKey(ll: seq<CacheItem>, i: nat, j: nat)
    requires Apart(ll) && i < |ll| && j < |ll| && i != j
    ensures ll[i].key != ll[j].key
  {
  }

  lemma FrontLinked(cache: map<string, CacheItem>, ll: seq<CacheItem>, item: CacheItem)
    requires Linked(cache, ll) && Apart(ll) && item.key !in cache
    requires forall j :: 0 <= j < |ll| ==> Separate(item, ll[j])
    ensures Apart([item] + ll) && Linked(cache[item.key := item], [item] + ll)
  {
    hide Separate;
    FrontApart(ll, item);
    var all, table := [item] + ll, cache[item.key := item];
    forall k | k in table
      ensures table[k].key == k && table[k] in all
    {
      if k == item.key {
        assert all[0] == item;
      } else {
        var j :| 0 <= j < |ll| && ll[j] == cache[k];
        assert all[j + 1] == cache[k];
      }
    }
    forall j | 0 <= j < |all|
      ensures all[j].key in table && table[all[j].key] == all[j]
    {
      assert j > 0 ==> all[j] == ll[j - 1];
    }
  }

  lemma FrontApart(ll: seq<CacheItem>, item: CacheItem)
    requires Apart(ll) && forall j :: 0 <= j < |ll| ==> Separate(item, ll[j])
    ensures Apart([item] + ll)
  {
    hide Separate;
    var all := [item] + ll;
    forall i, j | 0 <= i < j < |all|
      ensures Separate(all[i], all[j])
    {
      assert all[j] == ll[j - 1];
      assert i > 0 ==> all[i] == ll[i - 1];
    }
  }

  lemma DropItems(ll: seq<CacheItem>, i: nat)
    requires i < |ll| && Apart(ll)
    ensures DistinctKeys(Items(ll))
    ensures Find(Items(ll), ll[i].key) == Some(ll[i].View())
    ensures Items(Dropped(ll, i)) == Without(Items(ll), ll[i].key)
  {
    hide Without, Find;
    AtPosition(Items(ll), i);
    assert Items(Dropped(ll, i)) == Items(ll)[..i] + Items(ll)[i + 1..];
  }

  lemma AbsentItems(cache: map<string, CacheItem>, ll: seq<CacheItem>, key: string)
    requires Linked(cache, ll) && key !in cache
    ensures Find(Items(ll), key) == None && Without(Items(ll), key) == Items(ll)
  {
    Absent(Items(ll), key);
  }

  lemma FrontItems(item: CacheItem, ll: seq<CacheItem>)
    ensures Items([item] + ll) == [item.View()] + Items(ll)
  {
  }

  lemma MoveLinked(cache: map<string, CacheItem>, ll: seq<CacheItem>, i: nat, item: CacheItem)
    requires Linked(cache, ll) && Apart(ll) && i < |ll| && ll[i].key == item.key
    requires forall j :: 0 <= j < |ll| && j != i ==> Separate(item, ll[j])
    ensures var moved := [item] + Dropped(ll, i);
            Apart(moved) && Linked(cache[item.key := item], moved)
  {
    hide Separate, Linked, Apart;
    var rest := Dropped(ll, i);
    DropLinked(cache, ll, i);
    assert forall j :: 0 <= j < |rest| ==> rest[j] == ll[if j < i then j else j + 1];
    FrontLinked(cache - {item.key}, rest, item);
    assert (cache - {item.key})[item.key := item] == cache[item.key := item];
  }

  class LRUCache {
    var cache: map<string, CacheItem>
    var ll: seq<CacheItem>
    const cacheSize: nat
    var cacheLen: int

    ghost predicate Consistent()
      reads this
    {
      Linked(cache, ll) && Apart(ll)
    }

    /** Consistent, counted, and within a capacity that is not zero. */
    ghost predicate Valid()
      reads this
    {
      Consistent() && cacheLen == |ll| && (cacheSize > 0 ==> |ll| <= cacheSize)
    }

    ghost function View(): (items: seq<Item>)
      reads this, ll, Leakies(ll), Tokens(ll)
    {
      Items(ll)
    }

    /** The item's buckets belong to no item cached under another key. */
    ghost predicate Unshared(item: CacheItem)
      reads this
    {
      forall j :: 0 <= j < |ll| && ll[j].key != item.key ==> Separate(item, ll[j])
    }

    constructor (maxSize: nat)
      ensures Valid() && View() == []
      ensures cacheSize == if maxSize == 0 then 50_000 else maxSize
    {
      cache, ll, cacheLen := map[], [], 0;
      cacheSize := if maxSize == 0 then 50_000 else maxSize;
    }

    /** Takes one element out of the list and its key out of the map. */
    method RemoveElement(e: CacheItem)
      requires Consistent() && e in ll
      modifies this
      ensures Consistent() && cacheLen == |ll| == old(|ll|) - 1
      ensures View() == Without(old(View()), e.key)
      ensures old(ll)[0] != e ==> |ll| > 0 && ll[0] == old(ll)[0]
    {
      hide Items, Without, Separate, Linked, Apart;
      var i :| 0 <= i < |ll| && ll[i] == e;
      DropItems(ll, i);
      DropLinked(cache, ll, i);
      ll := Dropped(ll, i);
      cache := cache - {e.key};
      cacheLen := |ll|;
    }

    /** Evicts the least recently used element. */
    method RemoveOldest()
      requires Consistent()
      modifies this
      ensures Consistent() && cacheLen == if old(ll) == [] then old(cacheLen) else |ll|
      ensures View() == if old(View()) == [] then [] else old(View())[..|old(View())| - 1]
      ensures |old(ll)| > 1 ==> |ll| > 0 && ll[0] == old(ll)[0]
    {
      hide Items, Separate, Linked;
      if |ll| > 0 {
        var last := |ll| - 1;
        DropItems(ll, last);
        AtPosition(View(), last);
        if last > 0 {
          OtherKey(ll, 0, last);
        }
        RemoveElement(ll[last]);
      }
    }

    method Remove(key: string)
      requires Valid()
      modifies this
      ensures Valid() && View() == Without(old(View()), key)
    {
      if key in cache {
        RemoveElement(cache[key]);
      } else {
        AbsentItems(cache, ll, key);
      }
    }

    /** Adds an item in front, replacing one with its key or evicting the oldest over capacity. */
    method Add(item: CacheItem) returns (existed: bool)
      requires Valid() && Unshared(item)
      modifies this
      ensures Valid() && View() == Added(old(View()), item.View(), cacheSize)
      ensures existed <==> item.key in old(cache)
      ensures |ll| > 0 && ll[0] == item
    {
      hide Items, Without, Separate, Linked, Apart, Find;
      if item.key in cache {
        CachedItems(cache, ll, item.key);
        ReplaceInFront(item);
        return true;
      }
      AbsentItems(cache, ll, item.key);
      PushFront(item);
      if cacheSize != 0 && |ll| > cacheSize {
        RemoveOldest();
      }
      cacheLen := |ll|;
      return false;
    }

    /** Puts an item with a new key in front. */
    method PushFront(item: CacheItem)
      requires Consistent() && Unshared(item) && item.key !in cache
      modifies this
      ensures Consistent() && cacheLen == old(cacheLen) && View() == [item.View()] + old(View())
      ensures ll == [item] + old(ll)
    {
      hide Items, Separate, Linked, Apart;
      FrontItems(item, ll);
      NotCached(cache, ll, item);
      FrontLinked(cache, ll, item);
      ll := [item] + ll;
      cache := cache[item.key := item];
    }

    /** Moves the element of the item's key to the front and puts the item in it. */
    method ReplaceInFront(item: CacheItem)
      requires Valid() && Unshared(item) && item.key in cache
      modifies this
      ensures Valid() && View() == [item.View()] + Without(old(View()), item.key)
      ensures |ll| > 0 && ll[0] == item
    {
      hide Items, Without, Separate, Apart, Linked, Find;
      CachedItems(cache, ll, item.key);
      var i :| 0 <= i < |ll| && ll[i] == cache[item.key];
      DropItems(ll, i);
      FrontItems(item, Dropped(ll, i));
      OthersSeparate(ll, i, item);
      MoveLinked(cache, ll, i, item);
      cache := cache[item.key := item];
      ll := [item] + Dropped(ll, i);
    }

    /** A hit moves to the front; an expired item is removed and not found. */
    method GetItem(key: string, now: int) returns (item: CacheItem?)
      requires Valid()
      modifies this
      ensures Valid() && View() == Got(old(View()), key, now).items
      ensures Got(old(View()), key, now).item == if item == null then None else Some(item.View())
      ensures item != null ==> |ll| > 0 && ll[0] == item && item.key == key && item in old(ll)
    {
      hide Items, Without, Separate, Linked, Apart, Find;
      if key !in cache {
        AbsentItems(cache, ll, key);
        return null;
      }
      CachedItems(cache, ll, key);
      var entry := cache[key];
      if entry.IsExpired(now) {
        RemoveElement(entry);
        return null;
      }
      StillUnshared(entry);
      ReplaceInFront(entry);
      return entry;
    }

    lemma StillUnshared(item: CacheItem)
      requires Consistent() && item in ll
      ensures Unshared(item)
    {
    }

    /** Sets when a key expires, if it is cached. */
    method UpdateExpiration(key: string, expireAt: int) returns (ok: bool)
      requires Valid()
      modifies if key in cache then {cache[key]} else {}
      ensures View() == if key in cache then Reexpired(old(View()), key, expireAt) else old(View())
      ensures ok <==> key in cache
      ensures key in cache ==>
                var item := cache[key];
                item.expireAt == expireAt && item.invalidAt == old(item.invalidAt)
    {
      if key in cache {
        var item := cache[key];
        CachedItems(cache, ll, key);
        ghost var i :| 0 <= i < |ll| && ll[i] == item;
        ghost var before := View();
        item.expireAt := expireAt;
        assert item.View() == before[i].(expireAt := expireAt);
        OnlyOneChanged(ll, i, before);
        return true;
      }
      return false;
    }

    method Size() returns (n: int)
      requires Valid()
      ensures n == |View()| && (cacheSize > 0 ==> n <= cacheSize)
    {
      return cacheLen;
    }
  }

  /** A change to one item shows in one place. */
  lemma OnlyOneChanged(ll: seq<CacheItem>, i: nat, before: seq<Item>)
    requires Apart(ll) && i < |ll| && |before| == |ll|
    requires before[i].key == ll[i].key && ll[i].View() == before[i].(expireAt := ll[i].expireAt)
    requires forall j :: 0 <= j < |ll| && j != i ==> ll[j].View() == before[j]
    ensures Items(ll) == Reexpired(before, ll[i].key, ll[i].expireAt)
  {
    hide Separate;
    forall x, y | 0 <= x < y < |before|
      ensures before[x].key != before[y].key
    {
      OtherKey(ll, x, y);
    }
    ReexpiredAt(before, i, ll[i].expireAt);
    assert Items(ll) == before[i := before[i].(expireAt := ll[i].expireAt)];
  }

  lemma OthersSeparate(ll: seq<CacheItem>, i: nat, item: CacheItem)
    requires Apart(ll) && i < |ll| && ll[i].key == item.key
    requires forall j :: 0 <= j < |ll| && ll[j].key != item.key ==> Separate(item, ll[j])
    ensures forall j :: 0 <= j < |ll| && j != i ==> Separate(item, ll[j])
  {
    forall j | 0 <= j < |ll| && j != i
      ensures Separate(item, ll[j])
    {
      OtherKey(ll, i, j);
    }
  }

  lemma NotCached(cache: map<string, CacheItem>, ll: seq<CacheItem>, item: CacheItem)
    requires Linked(cache, ll) && item.key !in cache
    requires forall j :: 0 <= j < |ll| && ll[j].key != item.key ==> Separate(item, ll[j])
    ensures forall j :: 0 <= j < |ll| ==> Separate(item, ll[j])
  {
    hide Separate;
  }

  lemma CachedItems(cache: map<string, CacheItem>, ll: seq<CacheItem>, key: string)
    requires Linked(cache, ll) && Apart(ll) && key in cache
    ensures cache[key].key == key && cache[key] in ll
    ensures Find(Items(ll), key) == Some(cache[key].View())
  {
    hide Separate, Apart, Items, Find;
    var i :| 0 <= i < |ll| && ll[i] == cache[key];
    DropItems(ll, i);
  }
}
