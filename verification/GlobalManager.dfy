/**
 The two loops that collect GLOBAL traffic: hits for the owners, and updates of what this node owns.
 Each loop is an object whose methods are the cases of its select; the ticker runs beside it.
 */
module GlobalManager {
  import opened Recency
  import opened Interval
  import opened GlobalHits

  lemma {:induction false} MergedAllExtends(epochs: seq<seq<Hit>>, batch: seq<Hit>)
    ensures MergedAll(epochs + [batch]) == MergedAll(epochs) + [Merged(batch)]
    ensures Flatten(epochs + [batch]) == Flatten(epochs) + batch
  {
    assert (epochs + [batch])[..|epochs|] == epochs;
  }

  ghost predicate WithinLimit(flushed: seq<map<string, Hit>>, limit: int) {
    forall i :: 0 <= i < |flushed| ==> flushed[i] != map[] && (1 <= limit ==> |flushed[i]| <= limit)
  }

  lemma AggregateGrowsByOne(hits: map<string, Hit>, r: Hit)
    ensures |Aggregated(hits, r)| == |hits| + (if r.key in hits then 0 else 1)
    ensures r.key in Aggregated(hits, r)
  {
    var after := Aggregated(hits, r);
    assert after.Keys == hits.Keys + {r.key};
    assert |after| == |after.Keys| && |hits| == |hits.Keys|;
  }

  /** Collects hits for the owners. */
  class AsyncHits {
    const limit: int
    const interval: Interval
    var queue: seq<Hit>
    var hits: map<string, Hit>
    ghost var asked: seq<Hit>                  // every request that was queued
    ghost var epochs: seq<seq<Hit>>            // the requests taken, cut where the loop flushed
    ghost var current: seq<Hit>                // the requests taken since the last flush
    ghost var flushed: seq<map<string, Hit>>   // what was sent

    ghost predicate Valid()
      reads this, interval
    {
      && asked == Flatten(epochs) + current + queue
      && hits == Merged(current)
      && flushed == MergedAll(epochs)
      && WithinLimit(flushed, limit)
      && (1 <= limit ==> |hits| < limit)
      && (hits != map[] ==> TickComing(interval.View()))
    }

    constructor (limit: int)
      ensures Valid() && fresh(interval) && asked == [] && flushed == []
    {
      this.limit := limit;
      interval := new Interval();
      queue, hits := [], map[];
      asked, epochs, current, flushed := [], [], [], [];
    }

    /** A request without hits is not queued. */
    method QueueHit(r: Hit)
      requires Valid()
      modifies this
      ensures Valid() && hits == old(hits) && flushed == old(flushed)
      ensures asked == if r.hits != 0 then old(asked) + [r] else old(asked)
    {
      if r.hits != 0 {
        queue := queue + [r];
        asked := asked + [r];
        assert asked == Flatten(epochs) + current + queue;
      }
    }

    /** The ticker's goroutine takes a step. */
    method Elapse()
      requires Valid()
      modifies interval
      ensures Valid()
    {
      interval.Run();
    }

    ghost method Flush()
      requires asked == Flatten(epochs) + current + queue && hits == Merged(current) && hits != map[]
      requires flushed == MergedAll(epochs) && WithinLimit(flushed, limit) && (1 <= limit ==> |hits| <= limit)
      modifies this`epochs, this`current, this`flushed
      ensures asked == Flatten(epochs) + queue && current == [] && flushed == MergedAll(epochs)
      ensures flushed == old(flushed) + [hits] && WithinLimit(flushed, limit)
    {
      MergedAllExtends(epochs, current);
      epochs, current, flushed := epochs + [current], [], flushed + [hits];
    }

    method Aggregate(r: Hit)
      modifies this`hits
      ensures hits == Aggregated(old(hits), r)
    {
      if r.key in hits {
        if HasBehavior(r.behavior, RESET_REMAINING) {
          hits := hits[r.key := hits[r.key].(behavior := SetBehavior(hits[r.key].behavior, RESET_REMAINING))];
        }
        hits := hits[r.key := hits[r.key].(hits := hits[r.key].hits + r.hits)];
      } else {
        hits := hits[r.key := r];
      }
    }

    /** Takes a request off the queue; a full batch goes out at once, to its owners. */
    method Take(owner: string -> Option<string>) returns (requests: map<string, seq<Hit>>)
      requires Valid() && queue != []
      modifies this, interval
      ensures Valid() && asked == old(asked) && queue == old(queue[1..])
      ensures var merged := Aggregated(old(hits), old(queue[0]));
              if |merged| == limit
              then
                && hits == map[] && flushed == old(flushed) + [merged]
                && Partitioned(merged, merged.Keys, owner, requests)
              else hits == merged && flushed == old(flushed) && requests == map[]
    {
      hide Merged, MergedAll, Flatten, Partitioned, WithinLimit, Aggregated;
      requests := map[];
      var r := queue[0];
      AggregateMerges(current, r);
      AggregateGrowsByOne(hits, r);
      assert Flatten(epochs) + current + queue == Flatten(epochs) + (current + [r]) + queue[1..];
      Aggregate(r);
      queue, current := queue[1..], current + [r];
      if |hits| == limit {
        Flush();
        MergedIsKeyed(old(current) + [r]);
        requests := SendHits(hits, owner);
        hits := map[];
        assert hits == Merged([]) by {
          NothingMerges();
        }
        assert asked == Flatten(epochs) + current + queue;
      } else if |hits| == 1 {
        interval.Next();
      }
    }

    /** Reads a tick; whatever is pending goes out. */
    method Tick(owner: string -> Option<string>) returns (requests: map<string, seq<Hit>>)
      requires Valid() && interval.ticked
      modifies this, interval
      ensures Valid() && asked == old(asked) && queue == old(queue) && hits == map[]
      ensures if old(hits) == map[] then flushed == old(flushed) && requests == map[]
              else flushed == old(flushed) + [old(hits)] && Partitioned(old(hits), old(hits).Keys, owner, requests)
    {
      hide Merged, MergedAll, Flatten, Partitioned, WithinLimit;
      requests := map[];
      interval.Receive();
      if |hits| != 0 {
        Flush();
        MergedIsKeyed(old(current));
        requests := SendHits(hits, owner);
        hits := map[];
        assert hits == Merged([]) by {
          NothingMerges();
        }
        assert asked == Flatten(epochs) + current + queue;
      }
    }

    /** Per key, every hit asked for has been sent, or is pending with a tick on its way, or queued. */
    lemma Conserved(key: string)
      requires Valid()
      ensures Sum(asked, key) == FlushedHits(flushed, key) + HitsOf(hits, key) + Sum(queue, key)
    {
      HitsAreConserved(epochs, current, queue, key);
    }
  }

  lemma NothingMerges()
    ensures Merged([]) == map[]
  {
  }

  // ----- Broadcasts -----

  /** The last update of each key. */
  function Latest(batch: seq<Hit>): map<string, Hit> {
    if batch == [] then map[]
    else
      var last := batch[|batch| - 1];
      Latest(batch[..|batch| - 1])[last.key := last]
  }

  function LatestAll(epochs: seq<seq<Hit>>): seq<map<string, Hit>> {
    if epochs == [] then [] else LatestAll(epochs[..|epochs| - 1]) + [Latest(epochs[|epochs| - 1])]
  }

  ghost predicate LastAt(batch: seq<Hit>, key: string, i: int) {
    0 <= i < |batch| && batch[i].key == key && forall j :: i < j < |batch| ==> batch[j].key != key
  }

  /** A broadcast carries exactly the keys updated since the last one, each as it was updated last. */
  lemma {:induction false} LatestIsLast(batch: seq<Hit>, key: string)
    ensures key in Latest(batch) ==> exists i :: LastAt(batch, key, i) && batch[i] == Latest(batch)[key]
    ensures key !in Latest(batch) ==> forall hit :: hit in batch ==> hit.key != key
  {
    if batch == [] {
    } else {
      var n := |batch| - 1;
      var init := batch[..n];
      LatestIsLast(init, key);
      if batch[n].key == key {
        assert LastAt(batch, key, n);
      } else if key in Latest(init) {
        var i :| LastAt(init, key, i) && init[i] == Latest(init)[key];
        assert LastAt(batch, key, i);
      }
    }
  }

  lemma NothingLatest()
    ensures Latest([]) == map[]
  {
  }

  lemma LatestExtends(batch: seq<Hit>, r: Hit)
    ensures Latest(batch + [r]) == Latest(batch)[r.key := r]
    ensures |Latest(batch + [r])| == |Latest(batch)| + (if r.key in Latest(batch) then 0 else 1)
  {
    assert (batch + [r])[..|batch|] == batch;
    var before, after := Latest(batch), Latest(batch + [r]);
    assert after.Keys == before.Keys + {r.key};
    assert |after| == |after.Keys| && |before| == |before.Keys|;
  }

  lemma LatestAllExtends(epochs: seq<seq<Hit>>, batch: seq<Hit>)
    ensures LatestAll(epochs + [batch]) == LatestAll(epochs) + [Latest(batch)]
    ensures Flatten(epochs + [batch]) == Flatten(epochs) + batch
  {
    assert (epochs + [batch])[..|epochs|] == epochs;
  }

  /** Collects updates for the other peers. */
  class Broadcasts {
    const limit: int
    const interval: Interval
    var queue: seq<Hit>
    var updates: map<string, Hit>
    ghost var asked: seq<Hit>
    ghost var epochs: seq<seq<Hit>>
    ghost var current: seq<Hit>
    ghost var flushed: seq<map<string, Hit>>

    ghost predicate Valid()
      reads this, interval
    {
      && asked == Flatten(epochs) + current + queue
      && updates == Latest(current)
      && flushed == LatestAll(epochs)
      && WithinLimit(flushed, limit)
      && (|updates| == 0 || |updates| < limit)
      && (updates != map[] ==> TickComing(interval.View()))
    }

    constructor (limit: int)
      ensures Valid() && fresh(interval) && asked == [] && flushed == []
    {
      this.limit := limit;
      interval := new Interval();
      queue, updates := [], map[];
      asked, epochs, current, flushed := [], [], [], [];
    }

    method QueueUpdate(r: Hit)
      requires Valid()
      modifies this
      ensures Valid() && updates == old(updates) && flushed == old(flushed)
      ensures asked == if r.hits != 0 then old(asked) + [r] else old(asked)
    {
      if r.hits != 0 {
        queue := queue + [r];
        asked := asked + [r];
        assert asked == Flatten(epochs) + current + queue;
      }
    }

    method Elapse()
      requires Valid()
      modifies interval
      ensures Valid()
    {
      interval.Run();
    }

    ghost method Flush()
      requires asked == Flatten(epochs) + current + queue && updates == Latest(current) && updates != map[]
      requires flushed == LatestAll(epochs) && WithinLimit(flushed, limit) && (1 <= limit ==> |updates| <= limit)
      modifies this`epochs, this`current, this`flushed
      ensures asked == Flatten(epochs) + queue && current == [] && flushed == LatestAll(epochs)
      ensures flushed == old(flushed) + [updates] && WithinLimit(flushed, limit)
    {
      LatestAllExtends(epochs, current);
      epochs, current, flushed := epochs + [current], [], flushed + [updates];
    }

    /** Takes an update off the queue; a full batch goes out at once. */
    method Take() returns (sent: Option<map<string, Hit>>)
      requires Valid() && queue != []
      modifies this, interval
      ensures Valid() && asked == old(asked) && queue == old(queue[1..])
      ensures var latest := old(updates)[old(queue[0]).key := old(queue[0])];
              if |latest| >= limit then updates == map[] && sent == Some(latest) && flushed == old(flushed) + [latest]
              else updates == latest && sent == None && flushed == old(flushed)
    {
      hide Latest, LatestAll, Flatten, WithinLimit;
      NothingLatest();
      sent := None;
      var r := queue[0];
      LatestExtends(current, r);
      assert Flatten(epochs) + current + queue == Flatten(epochs) + (current + [r]) + queue[1..];
      updates := updates[r.key := r];
      queue, current := queue[1..], current + [r];
      if |updates| >= limit {
        Flush();
        sent := Some(updates);
        updates := map[];
        assert asked == Flatten(epochs) + current + queue;
      } else if |updates| == 1 {
        interval.Next();
      }
    }

    /** Reads a tick; whatever is pending goes out. */
    method Tick() returns (sent: Option<map<string, Hit>>)
      requires Valid() && interval.ticked
      modifies this, interval
      ensures Valid() && asked == old(asked) && queue == old(queue) && updates == map[]
      ensures sent == if old(updates) == map[] then None else Some(old(updates))
      ensures flushed == old(flushed) + (if sent.Some? then [sent.value] else [])
    {
      hide Latest, LatestAll, Flatten, WithinLimit;
      NothingLatest();
      sent := None;
      interval.Receive();
      if |updates| != 0 {
        Flush();
        sent := Some(updates);
        updates := map[];
        assert asked == Flatten(epochs) + current + queue;
      }
    }
  }
}
