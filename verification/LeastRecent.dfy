/**
 Why the cache is least recently used: over every run of its operations the items stand in the order
 of their last use, so what is evicted is what was used longest ago.
 */
module LeastRecent {
  import opened Recency

  datatype Operation =
    | Add(item: Item)
    | GetItem(key: string, now: int)
    | Remove(key: string)
    | UpdateExpiration(key: string, expireAt: int)

  function Applied(capacity: nat, items: seq<Item>, op: Operation): seq<Item> {
    match op
    case Add(item) => Added(items, item, capacity)
    case GetItem(key, now) => Got(items, key, now).items
    case Remove(key) => Without(items, key)
    case UpdateExpiration(key, expireAt) => Reexpired(items, key, expireAt)
  }

  function After(capacity: nat, ops: seq<Operation>): seq<Item> {
    if ops == [] then [] else Applied(capacity, After(capacity, ops[..|ops| - 1]), ops[|ops| - 1])
  }

  /** Adding an item uses its key, and so does finding it. */
  predicate Uses(items: seq<Item>, op: Operation, key: string) {
    match op
    case Add(item) => item.key == key
    case GetItem(k, now) => k == key && Got(items, k, now).item.Some?
    case Remove(_) => false
    case UpdateExpiration(_, _) => false
  }

  /** Which operation of a run used a key last. */
  function LastUse(capacity: nat, ops: seq<Operation>, key: string): (r: int)
    ensures -1 <= r < |ops|
  {
    if ops == [] then -1
    else
      var n := |ops| - 1;
      if Uses(After(capacity, ops[..n]), ops[n], key) then n else LastUse(capacity, ops[..n], key)
  }

  // ----- Items in the order of some clock -----

  ghost predicate Ordered(items: seq<Item>, use: string -> int) {
    forall i, j :: 0 <= i < j < |items| ==> use(items[i].key) > use(items[j].key)
  }

  ghost predicate Before(items: seq<Item>, use: string -> int, time: int) {
    forall item :: item in items ==> use(item.key) < time
  }

  lemma OrderedFront(item: Item, items: seq<Item>, use: string -> int)
    requires Ordered(items, use) && Before(items, use, use(item.key))
    ensures Ordered([item] + items, use)
  {
    var all := [item] + items;
    forall i, j | 0 <= i < j < |all|
      ensures use(all[i].key) > use(all[j].key)
    {
      assert all[j] == items[j - 1] && items[j - 1] in items;
    }
  }

  lemma OrderedTail(items: seq<Item>, use: string -> int)
    requires Ordered(items, use) && items != []
    ensures Ordered(items[1..], use) && Before(items[1..], use, use(items[0].key))
  {
  }

  lemma {:induction false} OrderedWithout(items: seq<Item>, key: string, use: string -> int)
    requires Ordered(items, use)
    ensures Ordered(Without(items, key), use)
    ensures forall item :: item in Without(items, key) ==> item in items && item.key != key
    ensures |Without(items, key)| <= |items|
    ensures Find(items, key).Some? ==> |Without(items, key)| < |items|
  {
    if items == [] {
    } else {
      var rest := items[1..];
      OrderedTail(items, use);
      OrderedWithout(rest, key, use);
      if items[0].key != key {
        OrderedFront(items[0], Without(rest, key), use);
      }
    }
  }

  lemma {:induction false} ReexpiredKeys(items: seq<Item>, key: string, expireAt: int)
    ensures var r := Reexpired(items, key, expireAt);
            |r| == |items| && forall i :: 0 <= i < |r| ==> r[i].key == items[i].key
  {
    if items != [] && items[0].key != key {
      ReexpiredKeys(items[1..], key, expireAt);
    }
  }

  lemma OrderedReexpired(items: seq<Item>, key: string, expireAt: int, use: string -> int)
    requires Ordered(items, use)
    ensures var r := Reexpired(items, key, expireAt);
            |r| == |items| && Ordered(r, use) && forall i :: 0 <= i < |r| ==> r[i].key == items[i].key
  {
    hide Reexpired;
    ReexpiredKeys(items, key, expireAt);
  }

  /** Only the key just used changes its time, and it becomes the latest. */
  ghost predicate Advances(items: seq<Item>, op: Operation, use: string -> int, use': string -> int, time: int) {
    forall key :: use'(key) == (if Uses(items, op, key) then time else use(key)) && use(key) < time
  }

  lemma Retimed(items: seq<Item>, use: string -> int, use': string -> int)
    requires Ordered(items, use) && forall item :: item in items ==> use'(item.key) == use(item.key)
    ensures Ordered(items, use')
  {
    forall i, j | 0 <= i < j < |items|
      ensures use'(items[i].key) > use'(items[j].key)
    {
      assert items[i] in items && items[j] in items;
    }
  }

  lemma PromotedFirst(item: Item, items: seq<Item>, use: string -> int, use': string -> int, time: int)
    requires Ordered(items, use) && use'(item.key) == time
    requires forall x :: x in items ==> use'(x.key) == use(x.key) && use(x.key) < time
    ensures Ordered([item] + items, use')
  {
    Retimed(items, use, use');
    OrderedFront(item, items, use');
  }

  lemma OrderedAdded(capacity: nat, items: seq<Item>, item: Item, use: string -> int, use': string -> int, time: int)
    requires Ordered(items, use) && Advances(items, Add(item), use, use', time)
    requires capacity == 0 || |items| <= capacity
    ensures Ordered(Added(items, item, capacity), use')
    ensures capacity == 0 || |Added(items, item, capacity)| <= capacity
  {
    if Find(items, item.key).Some? {
      OrderedWithout(items, item.key, use);
      PromotedFirst(item, Without(items, item.key), use, use', time);
    } else {
      FindNone(items, item.key);
      PromotedFirst(item, items, use, use', time);
      var all := [item] + items;
      assert Ordered(all[..|all| - 1], use');
    }
  }

  lemma OrderedGot(items: seq<Item>, key: string, now: int, use: string -> int, use': string -> int, time: int)
    requires Ordered(items, use) && Advances(items, GetItem(key, now), use, use', time)
    ensures Ordered(Got(items, key, now).items, use') && |Got(items, key, now).items| <= |items|
  {
    OrderedWithout(items, key, use);
    FindSomeIn(items, key);
    if Got(items, key, now).item.Some? {
      PromotedFirst(Find(items, key).value, Without(items, key), use, use', time);
    } else {
      Retimed(Got(items, key, now).items, use, use');
    }
  }

  lemma OrderedStep(capacity: nat, items: seq<Item>, op: Operation, use: string -> int, use': string -> int, time: int)
    requires Ordered(items, use) && Advances(items, op, use, use', time)
    requires capacity == 0 || |items| <= capacity
    ensures Ordered(Applied(capacity, items, op), use')
    ensures capacity == 0 || |Applied(capacity, items, op)| <= capacity
  {
    hide Added, Got;
    match op
    case Add(item) => OrderedAdded(capacity, items, item, use, use', time);
    case GetItem(key, now) => OrderedGot(items, key, now, use, use', time);
    case Remove(key) =>
      OrderedWithout(items, key, use);
      Retimed(Without(items, key), use, use');
    case UpdateExpiration(key, expireAt) =>
      OrderedReexpired(items, key, expireAt, use);
      Retimed(Reexpired(items, key, expireAt), use, use');
  }

  function Clock(capacity: nat, ops: seq<Operation>): string -> int {
    key => LastUse(capacity, ops, key)
  }

  /** After every run the items stand by their last use, the latest first, each key once, and never
      more than the capacity; so eviction, which drops the last item, drops the least recently used. */
  lemma {:induction false} OrderedByLastUse(capacity: nat, ops: seq<Operation>)
    ensures Ordered(After(capacity, ops), Clock(capacity, ops)) && DistinctKeys(After(capacity, ops))
    ensures capacity == 0 || |After(capacity, ops)| <= capacity
  {
    if ops == [] {
    } else {
      hide Applied, Uses;
      var n := |ops| - 1;
      var rest := ops[..n];
      OrderedByLastUse(capacity, rest);
      assert Advances(After(capacity, rest), ops[n], Clock(capacity, rest), Clock(capacity, ops), n);
      OrderedStep(capacity, After(capacity, rest), ops[n], Clock(capacity, rest), Clock(capacity, ops), n);
    }
  }
}
