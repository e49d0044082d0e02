/**
 The consistent-hash ring that maps keys to peers: replicas sorted by hash and searched by halving,
 against "the next replica clockwise".
 */
module Ring {

  /** A peer, known by its address. */
  datatype Peer = Peer(address: string)

  datatype Replica = Replica(hash: nat, peer: Peer)

  datatype Pick = Picked(peer: Peer) | EmptyPool

  /** Where the hash function puts a peer's replicas and a key. */
  datatype Hashing = Hashing(spot: (string, nat) -> nat, keyHash: string -> nat)

  // ----- Clockwise -----

  /** The peer has a replica at that hash. */
  ghost predicate Holds(f: Hashing, replicas: nat, peers: set<Peer>, r: Replica) {
    r.peer in peers && exists i :: 0 <= i < replicas && f.spot(r.peer.address, i) == r.hash
  }

  /** r is the first replica at or after h, or the first of all when none is. */
  ghost predicate Clockwise(f: Hashing, replicas: nat, peers: set<Peer>, h: nat, r: Replica) {
    && Holds(f, replicas, peers, r)
    && (|| (r.hash >= h && forall q :: Holds(f, replicas, peers, q) && q.hash >= h ==> r.hash <= q.hash)
        || (forall q :: Holds(f, replicas, peers, q) ==> q.hash < h && r.hash <= q.hash))
  }

  /** The key belongs to the peer whose replica comes next clockwise. */
  ghost predicate Owns(f: Hashing, replicas: nat, peers: set<Peer>, key: string, peer: Peer) {
    exists r: Replica :: Clockwise(f, replicas, peers, f.keyHash(key), r) && r.peer == peer
  }

  /** No hash is shared by two peers. */
  ghost predicate DistinctHashes(f: Hashing, replicas: nat, peers: set<Peer>) {
    forall p, q :: Holds(f, replicas, peers, p) && Holds(f, replicas, peers, q) && p.hash == q.hash ==> p.peer == q.peer
  }

  lemma OneClockwise(f: Hashing, replicas: nat, peers: set<Peer>, h: nat, a: Replica, b: Replica)
    requires Clockwise(f, replicas, peers, h, a) && Clockwise(f, replicas, peers, h, b)
    ensures a.hash == b.hash
  {
    hide Holds;
  }

  /** A key has one owner. */
  lemma OneOwner(f: Hashing, replicas: nat, peers: set<Peer>, key: string, a: Peer, b: Peer)
    requires DistinctHashes(f, replicas, peers)
    requires Owns(f, replicas, peers, key, a) && Owns(f, replicas, peers, key, b)
    ensures a == b
  {
    hide Holds;
    var h := f.keyHash(key);
    var x: Replica :| Clockwise(f, replicas, peers, h, x) && x.peer == a;
    var y: Replica :| Clockwise(f, replicas, peers, h, y) && y.peer == b;
    OneClockwise(f, replicas, peers, h, x, y);
  }

  lemma MorePeersHoldMore(f: Hashing, replicas: nat, peers: set<Peer>, peer: Peer, r: Replica)
    ensures Holds(f, replicas, peers, r) ==> Holds(f, replicas, peers + {peer}, r)
    ensures Holds(f, replicas, peers + {peer}, r) ==> Holds(f, replicas, peers, r) || r.peer == peer
  {
  }

  lemma HeldByEither(f: Hashing, replicas: nat, peers: set<Peer>, peer: Peer, r: Replica)
    ensures Holds(f, replicas, peers + {peer}, r) <==> Holds(f, replicas, peers, r) || Holds(f, replicas, {peer}, r)
  {
  }

  /** A new peer takes keys only for itself: a key it does not own keeps its owner. */
  lemma NewPeerTakesOnlyItsOwn(f: Hashing, replicas: nat, peers: set<Peer>, peer: Peer, key: string, before: Peer,
                               after: Peer)
    requires DistinctHashes(f, replicas, peers + {peer})
    requires Owns(f, replicas, peers, key, before) && Owns(f, replicas, peers + {peer}, key, after)
    ensures after == peer || after == before
  {
    hide Holds;
    if after != peer {
      var all, h := peers + {peer}, f.keyHash(key);
      var x: Replica :| Clockwise(f, replicas, peers, h, x) && x.peer == before;
      var y: Replica :| Clockwise(f, replicas, all, h, y) && y.peer == after;
      forall r
        ensures Holds(f, replicas, peers, r) ==> Holds(f, replicas, all, r)
      {
        MorePeersHoldMore(f, replicas, peers, peer, r);
      }
      MorePeersHoldMore(f, replicas, peers, peer, y);
      assert Clockwise(f, replicas, peers, h, y);
      OneClockwise(f, replicas, peers, h, x, y);
    }
  }

  // ----- The ring as it is kept -----

  predicate SortedByHash(s: seq<Replica>) {
    forall i, j :: 0 <= i < j < |s| ==> s[i].hash <= s[j].hash
  }

  function Inserted(s: seq<Replica>, i: nat, r: Replica): seq<Replica>
    requires i <= |s|
  {
    s[..i] + [r] + s[i..]
  }

  lemma InsertedAt(s: seq<Replica>, i: nat, r: Replica, k: nat)
    requires i <= |s| && k <= |s|
    ensures Inserted(s, i, r)[k] == if k < i then s[k] else if k == i then r else s[k - 1]
  {
  }

  lemma InsertedIsSorted(s: seq<Replica>, i: nat, r: Replica)
    requires SortedByHash(s) && i <= |s|
    requires forall k :: 0 <= k < i ==> s[k].hash < r.hash
    requires forall k :: i <= k < |s| ==> s[k].hash >= r.hash
    ensures SortedByHash(Inserted(s, i, r))
  {
    var t := Inserted(s, i, r);
    assert |t| == |s| + 1;
    hide Inserted;
    forall a, b | 0 <= a < b < |t|
      ensures t[a].hash <= t[b].hash
    {
      InsertedAt(s, i, r, a);
      InsertedAt(s, i, r, b);
    }
  }

  lemma InsertedHolds(s: seq<Replica>, i: nat, r: Replica)
    requires i <= |s|
    ensures multiset(Inserted(s, i, r)) == multiset(s) + multiset{r}
  {
    assert s == s[..i] + s[i..];
  }

  /** A slice sorted by hash; replicas of equal hash may come in any order. */
  method SortSlice(s: seq<Replica>) returns (sorted: seq<Replica>)
    ensures SortedByHash(sorted) && multiset(sorted) == multiset(s)
  {
    sorted := [];
    hide Inserted;
    for n := 0 to |s|
      invariant SortedByHash(sorted) && multiset(sorted) == multiset(s[..n])
    {
      var i := SearchSlice(sorted, s[n].hash);
      assert s[..n + 1] == s[..n] + [s[n]];
      InsertedIsSorted(sorted, i, s[n]);
      InsertedHolds(sorted, i, s[n]);
      sorted := Inserted(sorted, i, s[n]);
    }
    assert s[..|s|] == s;
  }

  /** The first position whose hash is at least h, by halving. */
  method SearchSlice(s: seq<Replica>, h: nat) returns (at: nat)
    requires SortedByHash(s)
    ensures at <= |s|
    ensures forall k :: 0 <= k < at ==> s[k].hash < h
    ensures forall k :: at <= k < |s| ==> s[k].hash >= h
  {
    at := 0;
    var end := |s|;
    while at < end
      invariant 0 <= at <= end <= |s|
      invariant forall k :: 0 <= k < at ==> s[k].hash < h
      invariant forall k :: end <= k < |s| ==> s[k].hash >= h
    {
      var mid := (at + end) / 2;
      if s[mid].hash >= h {
        end := mid;
      } else {
        at := mid + 1;
      }
    }
  }

  ghost function PeersIn(peers: map<string, Peer>): set<Peer> {
    set a | a in peers :: peers[a]
  }

  lemma OnePeerMore(peers: map<string, Peer>, peer: Peer)
    requires forall a :: a in peers ==> peers[a].address == a
    ensures PeersIn(peers[peer.address := peer]) == PeersIn(peers) + {peer}
  {
    var more := peers[peer.address := peer];
    assert more[peer.address] == peer;
    forall p | p in PeersIn(peers)
      ensures p in PeersIn(more)
    {
      assert more[p.address] == p;
    }
  }

  class ReplicatedConsistentHash {
    const f: Hashing
    const replicas: nat
    var peers: map<string, Peer>
    var peerKeys: seq<Replica>

    ghost function PeerSet(): set<Peer>
      reads this
    {
      PeersIn(peers)
    }

    /** The slice is sorted and holds exactly the replicas of the peers. */
    ghost predicate Valid()
      reads this
    {
      && replicas >= 1
      && (forall a :: a in peers ==> peers[a].address == a)
      && SortedByHash(peerKeys)
      && forall r :: r in peerKeys <==> Holds(f, replicas, PeerSet(), r)
    }

    constructor (f: Hashing, replicas: nat)
      requires replicas >= 1
      ensures Valid() && this.f == f && this.replicas == replicas && PeerSet() == {}
    {
      this.f, this.replicas, peers, peerKeys := f, replicas, map[], [];
    }

    /** Adds a peer: its replicas are appended and the slice sorted again. */
    method Add(peer: Peer)
      requires Valid()
      modifies this
      ensures Valid() && PeerSet() == old(PeerSet()) + {peer}
    {
      hide Holds;
      OnePeerMore(peers, peer);
      peers := peers[peer.address := peer];
      var longer := AppendReplicas(peerKeys, peer);
      var sorted := SortSlice(longer);
      forall r
        ensures r in sorted <==> Holds(f, replicas, PeerSet(), r)
      {
        assert r in sorted <==> r in multiset(sorted);
        assert r in longer <==> r in multiset(longer);
        HeldByEither(f, replicas, old(PeerSet()), peer, r);
      }
      peerKeys := sorted;
    }

    method AppendReplicas(keys: seq<Replica>, peer: Peer) returns (longer: seq<Replica>)
      ensures forall r :: r in longer <==> r in keys || Holds(f, replicas, {peer}, r)
    {
      longer := keys;
      for i := 0 to replicas
        invariant forall r :: r in longer <==> r in keys || Holds(f, i, {peer}, r)
      {
        longer := longer + [Replica(f.spot(peer.address, i), peer)];
      }
    }

    /** The owner of a key, or an error when no peer was added. */
    method Get(key: string) returns (pick: Pick)
      requires Valid()
      ensures pick.EmptyPool? <==> PeerSet() == {}
      ensures pick.Picked? ==> Owns(f, replicas, PeerSet(), key, pick.peer)
    {
      if |peers| == 0 {
        return EmptyPool;
      }
      var h := f.keyHash(key);
      var idx := SearchSlice(peerKeys, h);
      assert |peerKeys| > 0 by {
        var a :| a in peers;
        assert Holds(f, replicas, PeerSet(), Replica(f.spot(peers[a].address, 0), peers[a]));
      }
      if idx == |peerKeys| {
        idx := 0;
      }
      assert Clockwise(f, replicas, PeerSet(), h, peerKeys[idx]);
      return Picked(peerKeys[idx].peer);
    }
  }

  /** Builds the ring for a list of peers from nothing, as is done whenever the list changes. */
  method SetPeers(f: Hashing, replicas: nat, list: seq<Peer>) returns (ring: ReplicatedConsistentHash)
    requires replicas >= 1
    ensures fresh(ring) && ring.Valid() && ring.f == f && ring.replicas == replicas
    ensures ring.PeerSet() == set p | p in list
  {
    ring := new ReplicatedConsistentHash(f, replicas);
    for n := 0 to |list|
      invariant fresh(ring) && ring.Valid() && ring.f == f && ring.replicas == replicas
      invariant ring.PeerSet() == set p | p in list[..n]
    {
      ring.Add(list[n]);
    }
    assert list[..|list|] == list;
  }

  /** Peers that see the same peers, in whatever order, agree on every owner; one that sees a peer
      more agrees on every key that peer does not own. */
  method AgreeOnOwner(f: Hashing, replicas: nat, a: seq<Peer>, b: seq<Peer>, extra: Peer, key: string)
    returns (x: Pick, y: Pick, z: Pick)
    requires replicas >= 1 && a != [] && (set p | p in a) == (set p | p in b)
    requires DistinctHashes(f, replicas, (set p | p in a) + {extra})
    ensures x == y
    ensures z == x || z == Picked(extra)
  {
    var ring := SetPeers(f, replicas, a);
    var ring' := SetPeers(f, replicas, b);
    x := ring.Get(key);
    y := ring'.Get(key);
    ghost var peers := ring.PeerSet();
    assert a[0] in peers;
    FewerPeersDistinct(f, replicas, peers, extra);
    OneOwner(f, replicas, peers, key, x.peer, y.peer);
    ring'.Add(extra);
    z := ring'.Get(key);
    assert extra in ring'.PeerSet();
    NewPeerTakesOnlyItsOwn(f, replicas, peers, extra, key, x.peer, z.peer);
  }

  lemma FewerPeersDistinct(f: Hashing, replicas: nat, peers: set<Peer>, peer: Peer)
    requires DistinctHashes(f, replicas, peers + {peer})
    ensures DistinctHashes(f, replicas, peers)
  {
    hide Holds;
    forall r
      ensures Holds(f, replicas, peers, r) ==> Holds(f, replicas, peers + {peer}, r)
    {
      MorePeersHoldMore(f, replicas, peers, peer, r);
    }
  }
}
