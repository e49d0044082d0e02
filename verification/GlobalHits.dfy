/**
 How a node that does not own a GLOBAL rate limit collects its hits and sends them to the owners:
 nothing is lost or sent twice, and a pending batch always has a tick on its way.
 */
module GlobalHits {
  import opened Recency
  import opened Interval

  const RESET_REMAINING: bv32 := 8

  predicate HasBehavior(behavior: bv32, flag: bv32) {
    behavior & flag != 0
  }

  function SetBehavior(behavior: bv32, flag: bv32): bv32 {
    behavior | flag
  }

  /** A rate limit request; config stands for the fields that aggregation leaves alone. */
  datatype Hit = Hit(key: string, hits: int, behavior: bv32, config: int)

  predicate Resets(hit: Hit) {
    HasBehavior(hit.behavior, RESET_REMAINING)
  }

  // ----- What a batch should come to -----

  function Sum(batch: seq<Hit>, key: string): int {
    if batch == [] then 0
    else
      var last := batch[|batch| - 1];
      Sum(batch[..|batch| - 1], key) + if last.key == key then last.hits else 0
  }

  function First(batch: seq<Hit>, key: string): Option<Hit> {
    if batch == [] then None
    else if batch[0].key == key then Some(batch[0])
    else First(batch[1..], key)
  }

  predicate AnyReset(batch: seq<Hit>, key: string) {
    exists i :: 0 <= i < |batch| && batch[i].key == key && Resets(batch[i])
  }

  function Keys(batch: seq<Hit>): set<string> {
    set hit | hit in batch :: hit.key
  }

  /** All of a key's hits in one request, the first one's, which resets if any of them did. */
  function Together(batch: seq<Hit>, key: string): Hit {
    match First(batch, key)
    case None => Hit(key, 0, 0, 0)
    case Some(first) =>
      Hit(key, Sum(batch, key),
          if AnyReset(batch, key) then SetBehavior(first.behavior, RESET_REMAINING) else first.behavior, first.config)
  }

  function Merged(batch: seq<Hit>): map<string, Hit> {
    map key | key in Keys(batch) :: Together(batch, key)
  }

  lemma SumExtends(batch: seq<Hit>, hit: Hit, key: string)
    ensures Sum(batch + [hit], key) == Sum(batch, key) + if hit.key == key then hit.hits else 0
  {
    assert (batch + [hit])[..|batch|] == batch;
  }

  lemma {:induction false} FirstExtends(batch: seq<Hit>, hit: Hit, key: string)
    ensures First(batch + [hit], key) ==
            if First(batch, key).Some? then First(batch, key) else if hit.key == key then Some(hit) else None
  {
    if batch == [] {
      assert [hit][1..] == [];
    } else {
      FirstExtends(batch[1..], hit, key);
      assert (batch + [hit])[1..] == batch[1..] + [hit];
    }
  }

  lemma {:induction false} FirstIff(batch: seq<Hit>, key: string)
    ensures First(batch, key).Some? <==> key in Keys(batch)
    ensures First(batch, key).Some? ==> First(batch, key).value in batch && First(batch, key).value.key == key
  {
    if batch == [] {
    } else {
      FirstIff(batch[1..], key);
      assert forall hit :: hit in batch <==> hit == batch[0] || hit in batch[1..];
      assert Keys(batch) == Keys(batch[1..]) + {batch[0].key};
    }
  }

  lemma AnyResetExtends(batch: seq<Hit>, hit: Hit, key: string)
    ensures AnyReset(batch + [hit], key) <==> AnyReset(batch, key) || (hit.key == key && Resets(hit))
  {
    hide Resets;
    var all := batch + [hit];
    if hit.key == key && Resets(hit) {
      assert all[|batch|] == hit;
    } else if AnyReset(batch, key) {
      var i :| 0 <= i < |batch| && batch[i].key == key && Resets(batch[i]);
      assert all[i] == batch[i];
    }
  }

  lemma KeysExtends(batch: seq<Hit>, hit: Hit)
    ensures Keys(batch + [hit]) == Keys(batch) + {hit.key}
  {
    assert forall x :: x in batch + [hit] <==> x in batch || x == hit;
  }

  /** What the loop does with one more request. */
  function Aggregated(hits: map<string, Hit>, r: Hit): map<string, Hit> {
    if r.key in hits then
      var held := hits[r.key];
      var behavior := if Resets(r) then SetBehavior(held.behavior, RESET_REMAINING) else held.behavior;
      hits[r.key := held.(behavior := behavior, hits := held.hits + r.hits)]
    else hits[r.key := r]
  }

  lemma SetTwice(behavior: bv32)
    ensures SetBehavior(SetBehavior(behavior, RESET_REMAINING), RESET_REMAINING) ==
            SetBehavior(behavior, RESET_REMAINING)
    ensures HasBehavior(behavior, RESET_REMAINING) ==> SetBehavior(behavior, RESET_REMAINING) == behavior
  {
  }

  lemma TogetherExtends(batch: seq<Hit>, r: Hit, key: string)
    ensures Together(batch + [r], key) ==
            if r.key != key then Together(batch, key)
            else if First(batch, key).None? then r
            else
              var held := Together(batch, key);
              held.(behavior := if Resets(r) then SetBehavior(held.behavior, RESET_REMAINING) else held.behavior,
                    hits := held.hits + r.hits)
  {
    hide SetBehavior, HasBehavior, Sum, AnyReset;
    SumExtends(batch, r, key);
    FirstExtends(batch, r, key);
    AnyResetExtends(batch, r, key);
    if First(batch, key).Some? {
      SetTwice(First(batch, key).value.behavior);
    } else {
      NoneYet(batch, key);
      SetTwice(r.behavior);
    }
  }

  lemma {:induction false} NoneYet(batch: seq<Hit>, key: string)
    requires First(batch, key).None?
    ensures Sum(batch, key) == 0 && !AnyReset(batch, key)
  {
    if batch == [] {
    } else {
      var init, last := batch[..|batch| - 1], batch[|batch| - 1];
      assert batch == init + [last];
      FirstExtends(init, last, key);
      NoneYet(init, key);
      AnyResetExtends(init, last, key);
    }
  }

  /** The loop's running aggregate is the whole batch, merged. */
  lemma AggregateMerges(batch: seq<Hit>, r: Hit)
    ensures Aggregated(Merged(batch), r) == Merged(batch + [r])
  {
    hide Together, Resets, SetBehavior;
    KeysExtends(batch, r);
    var left, right := Aggregated(Merged(batch), r), Merged(batch + [r]);
    forall key | key in Keys(batch + [r])
      ensures left[key] == right[key]
    {
      TogetherExtends(batch, r, key);
      FirstIff(batch, key);
    }
  }

  lemma MergedHits(batch: seq<Hit>, key: string)
    ensures HitsOf(Merged(batch), key) == Sum(batch, key)
    ensures key in Merged(batch) ==>
              Merged(batch)[key].key == key && (Resets(Merged(batch)[key]) <==> AnyReset(batch, key))
  {
    FirstIff(batch, key);
    if key !in Merged(batch) {
      NoneYet(batch, key);
    } else if !AnyReset(batch, key) {
      FirstAt(batch, key);
    }
  }

  /** The aggregate of a key is its first request of the batch, with all the hits, and the reset flag added if
      any request had it; nothing else of it changes. */
  lemma MergedIsFirst(batch: seq<Hit>, key: string) returns (i: nat)
    requires key in Merged(batch)
    ensures i < |batch| && batch[i].key == key && (forall j :: 0 <= j < i ==> batch[j].key != key)
    ensures var merged := Merged(batch)[key];
            && merged.config == batch[i].config
            && merged.behavior == if AnyReset(batch, key) then batch[i].behavior | 8 else batch[i].behavior
  {
    hide AnyReset, Sum, Keys, First;
    FirstIff(batch, key);
    i := FirstPlace(batch, key);
  }

  lemma {:induction false} FirstPlace(batch: seq<Hit>, key: string) returns (i: nat)
    requires First(batch, key).Some?
    ensures i < |batch| && batch[i] == First(batch, key).value && batch[i].key == key
    ensures forall j :: 0 <= j < i ==> batch[j].key != key
  {
    if batch[0].key == key {
      i := 0;
    } else {
      var k := FirstPlace(batch[1..], key);
      i := k + 1;
      assert forall j :: 0 < j < i ==> batch[j] == batch[1..][j - 1];
    }
  }

  lemma FirstAt(batch: seq<Hit>, key: string)
    requires First(batch, key).Some? && !AnyReset(batch, key)
    ensures !Resets(First(batch, key).value)
  {
    hide Resets;
    FirstIff(batch, key);
    var i :| 0 <= i < |batch| && batch[i] == First(batch, key).value;
  }

  // ----- Whole runs -----

  function HitsOf(hits: map<string, Hit>, key: string): int {
    if key in hits then hits[key].hits else 0
  }

  function Flatten(epochs: seq<seq<Hit>>): seq<Hit> {
    if epochs == [] then [] else Flatten(epochs[..|epochs| - 1]) + epochs[|epochs| - 1]
  }

  function FlushedHits(flushed: seq<map<string, Hit>>, key: string): int {
    if flushed == [] then 0 else FlushedHits(flushed[..|flushed| - 1], key) + HitsOf(flushed[|flushed| - 1], key)
  }

  function MergedAll(epochs: seq<seq<Hit>>): seq<map<string, Hit>> {
    if epochs == [] then [] else MergedAll(epochs[..|epochs| - 1]) + [Merged(epochs[|epochs| - 1])]
  }

  lemma Snoc(a: seq<Hit>, b: seq<Hit>)
    requires b != []
    ensures var init, last := b[..|b| - 1], b[|b| - 1]; b == init + [last] && a + b == (a + init) + [last]
  {
  }

  lemma {:induction false} SumAppends(a: seq<Hit>, b: seq<Hit>, key: string)
    ensures Sum(a + b, key) == Sum(a, key) + Sum(b, key)
  {
    if b == [] {
      assert a + b == a;
    } else {
      hide Sum;
      var init, last := b[..|b| - 1], b[|b| - 1];
      SumAppends(a, init, key);
      SumExtends(a + init, last, key);
      SumExtends(init, last, key);
      Snoc(a, b);
    }
  }

  lemma {:induction false} FlushedIsTaken(epochs: seq<seq<Hit>>, key: string)
    ensures FlushedHits(MergedAll(epochs), key) == Sum(Flatten(epochs), key)
  {
    hide Merged, HitsOf, Sum;
    if epochs != [] {
      var init, last := epochs[..|epochs| - 1], epochs[|epochs| - 1];
      FlushedIsTaken(init, key);
      SumAppends(Flatten(init), last, key);
      MergedHits(last, key);
      var all := MergedAll(epochs);
      assert all[..|all| - 1] == MergedAll(init);
    } else {
      NoHits(key);
    }
  }

  lemma NoHits(key: string)
    ensures Sum([], key) == 0
  {
  }

  /** Per key, every hit that was queued is in exactly one place: sent to the owner, waiting in the
      batch, or waiting in the queue. */
  lemma HitsAreConserved(epochs: seq<seq<Hit>>, current: seq<Hit>, queue: seq<Hit>, key: string)
    ensures Sum(Flatten(epochs) + current + queue, key) ==
            FlushedHits(MergedAll(epochs), key) + HitsOf(Merged(current), key) + Sum(queue, key)
  {
    hide Merged, HitsOf, Sum, FlushedHits;
    SumAppends(Flatten(epochs) + current, queue, key);
    SumAppends(Flatten(epochs), current, key);
    FlushedIsTaken(epochs, key);
    MergedHits(current, key);
  }

  // ----- Sending to the owners -----

  /** Every hit whose owner is known is in that owner's request and in no other, once; no request is
      empty and nothing else is sent. */
  ghost predicate Partitioned(hits: map<string, Hit>, done: set<string>, owner: string -> Option<string>,
                              requests: map<string, seq<Hit>>) {
    && (forall address :: address in requests ==> requests[address] != [] && OncePerKey(requests[address]))
    && (forall key, address :: key in done && key in hits && owner(key) == Some(address) ==>
          address in requests && hits[key] in requests[address])
    && forall address, hit :: address in requests && hit in requests[address] ==>
         hit.key in done && hit.key in hits && hits[hit.key] == hit && owner(hit.key) == Some(address)
  }

  ghost predicate OncePerKey(batch: seq<Hit>) {
    forall i, j :: 0 <= i < j < |batch| ==> batch[i].key != batch[j].key
  }

  ghost predicate Keyed(hits: map<string, Hit>) {
    forall key :: key in hits ==> hits[key].key == key
  }

  lemma MergedIsKeyed(batch: seq<Hit>)
    ensures Keyed(Merged(batch))
  {
    forall key | key in Merged(batch)
      ensures Merged(batch)[key].key == key
    {
      MergedHits(batch, key);
    }
  }

  lemma AssignOne(hits: map<string, Hit>, done: set<string>, owner: string -> Option<string>,
                  requests: map<string, seq<Hit>>, key: string)
    requires Partitioned(hits, done, owner, requests) && Keyed(hits) && key in hits && key !in done
    ensures Partitioned(hits, done + {key}, owner, Assigned(requests, owner(key), hits[key]))
  {
    var r, requests' := hits[key], Assigned(requests, owner(key), hits[key]);
    if owner(key).Some? {
      var address := owner(key).value;
      if address in requests {
        assert requests'[address] == requests[address] + [r];
        forall hit | hit in requests[address]
          ensures hit.key != key
        {
        }
        OnceExtends(requests[address], r);
      }
      assert r in requests'[address];
    }
  }

  lemma OnceExtends(batch: seq<Hit>, r: Hit)
    requires OncePerKey(batch) && forall hit :: hit in batch ==> hit.key != r.key
    ensures OncePerKey(batch + [r])
  {
  }

  function Assigned(requests: map<string, seq<Hit>>, address: Option<string>, r: Hit): map<string, seq<Hit>> {
    if address.None? then requests
    else if address.value in requests then requests[address.value := requests[address.value] + [r]]
    else requests[address.value := [r]]
  }

  /** The loop over a map runs in any order. */
  method SendHits(hits: map<string, Hit>, owner: string -> Option<string>) returns (requests: map<string, seq<Hit>>)
    requires Keyed(hits)
    ensures Partitioned(hits, hits.Keys, owner, requests)
  {
    requests := map[];
    var left := hits.Keys;
    while left != {}
      invariant left <= hits.Keys
      invariant Partitioned(hits, hits.Keys - left, owner, requests)
    {
      var key :| key in left;
      AssignOne(hits, hits.Keys - left, owner, requests, key);
      assert hits.Keys - left + {key} == hits.Keys - (left - {key});
      left := left - {key};
      var peer := owner(key);
      if peer.Some? {
        if peer.value in requests {
          requests := requests[peer.value := requests[peer.value] + [hits[key]]];
        } else {
          requests := requests[peer.value := [hits[key]]];
        }
      }
    }
    assert hits.Keys - {} == hits.Keys;
  }
}
