/**
 What an LRU cache is: the items by how recently they were used, most recent first.
 */
module Recency {
  import opened LeakyBucket
  import opened TokenBucket

  datatype Option<+T> = None | Some(value: T)

  datatype Value = NoValue | LeakyValue(bucket: Bucket) | TokenValue(token: Token)

  /** InvalidAt, unless zero, is when a store wants to be asked again. */
  datatype Item = Item(key: string, value: Value, expireAt: int, invalidAt: int)

  predicate IsExpired(item: Item, now: int) {
    (item.invalidAt != 0 && item.invalidAt < now) || item.expireAt < now
  }

  function Find(items: seq<Item>, key: string): Option<Item> {
    if items == [] then None
    else if items[0].key == key then Some(items[0])
    else Find(items[1..], key)
  }

  function Without(items: seq<Item>, key: string): seq<Item> {
    if items == [] then []
    else if items[0].key == key then Without(items[1..], key)
    else [items[0]] + Without(items[1..], key)
  }

  /** Over a capacity that is not zero, the least recently used item goes. */
  function Trim(items: seq<Item>, capacity: int): seq<Item> {
    if capacity != 0 && |items| > capacity && items != [] then items[..|items| - 1] else items
  }

  function Added(items: seq<Item>, item: Item, capacity: int): seq<Item> {
    if Find(items, item.key).Some? then [item] + Without(items, item.key)
    else Trim([item] + items, capacity)
  }

  datatype Found = Found(items: seq<Item>, item: Option<Item>)

  /** A hit moves to the front, an expired item is dropped. */
  function Got(items: seq<Item>, key: string, now: int): Found {
    match Find(items, key)
    case None => Found(items, None)
    case Some(item) =>
      if IsExpired(item, now) then Found(Without(items, key), None)
      else Found([item] + Without(items, key), Some(item))
  }

  function Reexpired(items: seq<Item>, key: string, expireAt: int): seq<Item> {
    if items == [] then []
    else if items[0].key == key then [items[0].(expireAt := expireAt)] + items[1..]
    else [items[0]] + Reexpired(items[1..], key, expireAt)
  }

  // ----- What the operations do to lookups -----

  lemma {:induction false} FindWithout(items: seq<Item>, key: string, other: string)
    ensures Find(Without(items, key), other) == if other == key then None else Find(items, other)
  {
    if items == [] {
    } else {
      FindWithout(items[1..], key, other);
      if items[0].key != key {
        assert ([items[0]] + Without(items[1..], key))[1..] == Without(items[1..], key);
      }
    }
  }

  lemma FindFirst(item: Item, items: seq<Item>, key: string)
    ensures Find([item] + items, key) == if item.key == key then Some(item) else Find(items, key)
  {
    assert ([item] + items)[1..] == items;
  }

  lemma {:induction false} FindInit(items: seq<Item>, key: string)
    requires items != []
    ensures var found := Find(items[..|items| - 1], key); found == Find(items, key) || found == None
  {
    if items[0].key != key && |items| > 1 {
      FindInit(items[1..], key);
      assert items[..|items| - 1][1..] == items[1..][..|items| - 2];
    }
  }

  lemma FindTrimmed(items: seq<Item>, capacity: int, key: string)
    ensures var found := Find(Trim(items, capacity), key); found == Find(items, key) || found == None
    ensures capacity == 0 ==> Trim(items, capacity) == items
  {
    if Trim(items, capacity) != items {
      FindInit(items, key);
    }
  }

  /** Adding an item never changes what another key finds, unless it is evicted. */
  lemma FindAdded(items: seq<Item>, item: Item, capacity: int, key: string)
    ensures var found := Find(Added(items, item, capacity), key);
            if key == item.key then found == Some(item) || (found == None && capacity < 0 && |items| == 0)
            else found == Find(items, key) || (found == None && capacity != 0)
  {
    FindFirst(item, Without(items, item.key), key);
    FindWithout(items, item.key, key);
    FindFirst(item, items, key);
    FindTrimmed([item] + items, capacity, key);
    if key == item.key && |items| > 0 && Trim([item] + items, capacity) != [item] + items {
      assert ([item] + items)[..|items|][0] == item;
    }
  }

  lemma FindGot(items: seq<Item>, key: string, now: int, other: string)
    ensures var got := Got(items, key, now);
            && Find(got.items, other) == (if other == key then got.item else Find(items, other))
            && (got.item.Some? ==> got.item == Find(items, key) && !IsExpired(got.item.value, now))
            && (got.item.None? ==> Find(items, key).None? || IsExpired(Find(items, key).value, now))
  {
    FindWithout(items, key, other);
    if Find(items, key).Some? {
      FindSomeIn(items, key);
      FindFirst(Find(items, key).value, Without(items, key), other);
    }
  }

  lemma {:induction false} FindNone(items: seq<Item>, key: string)
    ensures Find(items, key).None? <==> forall item :: item in items ==> item.key != key
  {
    if items == [] {
    } else {
      FindNone(items[1..], key);
      assert forall item :: item in items <==> item == items[0] || item in items[1..];
    }
  }

  lemma {:induction false} FindSomeIn(items: seq<Item>, key: string)
    ensures Find(items, key).Some? ==> Find(items, key).value in items && Find(items, key).value.key == key
  {
    if items != [] && items[0].key != key {
      FindSomeIn(items[1..], key);
    }
  }

  // ----- By position -----

  ghost predicate DistinctKeys(items: seq<Item>) {
    forall i, j :: 0 <= i < j < |items| ==> items[i].key != items[j].key
  }

  lemma {:induction false} Absent(items: seq<Item>, key: string)
    requires forall i :: 0 <= i < |items| ==> items[i].key != key
    ensures Find(items, key) == None && Without(items, key) == items
  {
    if items == [] {
    } else {
      Absent(items[1..], key);
    }
  }

  lemma {:induction false} AtPosition(items: seq<Item>, i: nat)
    requires i < |items| && DistinctKeys(items)
    ensures Find(items, items[i].key) == Some(items[i])
    ensures Without(items, items[i].key) == items[..i] + items[i + 1..]
  {
    if i == 0 {
      Absent(items[1..], items[i].key);
    } else {
      var rest := items[1..];
      AtPosition(rest, i - 1);
      assert items[..i] + items[i + 1..] == [items[0]] + (rest[..i - 1] + rest[i..]);
    }
  }

  lemma {:induction false} ReexpiredAt(items: seq<Item>, i: nat, expireAt: int)
    requires i < |items| && DistinctKeys(items)
    ensures Reexpired(items, items[i].key, expireAt) == items[i := items[i].(expireAt := expireAt)]
  {
    if i == 0 {
    } else {
      var rest := items[1..];
      ReexpiredAt(rest, i - 1, expireAt);
      assert items[i := items[i].(expireAt := expireAt)] ==
             [items[0]] + rest[i - 1 := rest[i - 1].(expireAt := expireAt)];
    }
  }
}
