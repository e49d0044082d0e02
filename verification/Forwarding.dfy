/**
 Forwarding a rate limit request to the peer that owns its key, with retries while the ring changes,
 and collecting the answers of a whole batch of requests.
 */
module Forwarding {
  import opened Recency

  datatype Owner = Owner(address: string, self: bool)

  /** Interrupted: the call ended with a cancelled or expired context, somebody's. */
  datatype PeerAnswer = Answered(rate: int) | Interrupted | Refused

  /** What happens around a request: how its n-th call to a peer ends, whether the caller has gone by
      then, whom the ring names after it, and what this node would answer itself. */
  datatype World = World(call: nat -> PeerAnswer, gone: nat -> bool, lookup: nat -> Option<Owner>, local: Option<int>)

  datatype Reply = FromPeer(rate: int, owner: string) | FromSelf(rate: int) | Error(why: Failure)

  datatype Failure = NotConnected | LocalFailed | PeerFailed | CallerGone | NoOwner

  /** What the request did, in order. */
  datatype Event = CalledPeer(address: string, alone: bool) | ChargedHere

  const MAX_CALLS: nat := 6

  datatype Outcome = Outcome(reply: Reply, trace: seq<Event>)

  // ----- What forwarding comes to -----

  /** The n-th call leaves the request to be tried again. */
  predicate TriesAgain(maxWait: int, world: World, n: nat) {
    maxWait <= 0 && world.call(n).Interrupted? && !world.gone(n) && world.lookup(n).Some?
  }

  function PeerFor(first: Owner, world: World, n: nat): Owner {
    if n == 0 then first else if world.lookup(n - 1).Some? then world.lookup(n - 1).value else first
  }

  function CallEvent(maxWait: int, first: Owner, world: World, n: nat): Event {
    CalledPeer(PeerFor(first, world, n).address, maxWait > 0)
  }

  /** The answer when the n-th call is the last. */
  function LastReply(first: Owner, maxWait: int, world: World, n: nat): Reply {
    match world.call(n)
    case Answered(rate) => FromPeer(rate, PeerFor(first, world, n).address)
    case Refused => Error(PeerFailed)
    case Interrupted =>
      if maxWait > 0 then Error(PeerFailed)
      else if world.gone(n) then Error(CallerGone)
      else if world.lookup(n).None? then Error(NoOwner)
      else if n + 1 == MAX_CALLS then Error(NotConnected)
      else if world.local.None? then Error(LocalFailed)
      else FromSelf(world.local.value)
  }

  /** The request ends with its n-th call, counting from zero: there is no trying again, or no call
      is left, or the key has become this node's own. */
  predicate Ends(maxWait: int, world: World, n: nat) {
    !TriesAgain(maxWait, world, n) || n + 1 == MAX_CALLS || world.lookup(n).value.self
  }

  /** This node charges the hits itself exactly when the key has become its own in time. */
  predicate ChargesHere(maxWait: int, world: World, n: nat) {
    TriesAgain(maxWait, world, n) && n + 1 < MAX_CALLS
  }

  /** The request went to the owner of the moment until the first call that ends it. */
  ghost predicate Explained(first: Owner, maxWait: int, world: World, n: nat, o: Outcome) {
    && n < MAX_CALLS && Ends(maxWait, world, n) && (forall k :: 0 <= k < n ==> !Ends(maxWait, world, k))
    && |o.trace| == n + 1 + (if ChargesHere(maxWait, world, n) then 1 else 0)
    && (forall k :: 0 <= k <= n ==> o.trace[k] == CallEvent(maxWait, first, world, k))
    && (ChargesHere(maxWait, world, n) ==> o.trace[n + 1] == ChargedHere)
    && o.reply == LastReply(first, maxWait, world, n)
  }

  method AsyncRequest(first: Owner, maxWait: int, world: World) returns (o: Outcome, last: nat)
    ensures Explained(first, maxWait, world, last, o)
  {
    var attempts, peer := 0, first;
    var trace: seq<Event> := [];
    last := 0;
    while true
      invariant 0 <= attempts <= MAX_CALLS && |trace| == attempts
      invariant peer == PeerFor(first, world, attempts)
      invariant forall k :: 0 <= k < attempts ==> trace[k] == CallEvent(maxWait, first, world, k)
      invariant forall k :: 0 <= k < attempts ==> TriesAgain(maxWait, world, k)
      invariant forall k :: 0 <= k < attempts - 1 ==> !Ends(maxWait, world, k)
      decreases MAX_CALLS - attempts
    {
      assert attempts > 0 ==> TriesAgain(maxWait, world, attempts - 1);
      if attempts > 5 {
        last := attempts - 1;
        return Outcome(Error(NotConnected), trace), last;
      }
      if attempts != 0 {
        if peer.self {
          last := attempts - 1;
          trace := trace + [ChargedHere];
          return Outcome(if world.local.Some? then FromSelf(world.local.value) else Error(LocalFailed), trace), last;
        }
      }
      assert attempts > 0 ==> !Ends(maxWait, world, attempts - 1);
      trace := trace + [CalledPeer(peer.address, maxWait > 0)];
      var answer := world.call(attempts);
      last := attempts;
      if answer.Answered? {
        return Outcome(FromPeer(answer.rate, peer.address), trace), last;
      }
      if maxWait > 0 {
        return Outcome(Error(PeerFailed), trace), last;
      }
      if !answer.Interrupted? {
        return Outcome(Error(PeerFailed), trace), last;
      }
      if world.gone(attempts) {
        return Outcome(Error(CallerGone), trace), last;
      }
      attempts := attempts + 1;
      var newPeer := world.lookup(attempts - 1);
      if newPeer.None? {
        return Outcome(Error(NoOwner), trace), last;
      }
      peer := newPeer.value;
    }
  }

  // ----- What that means -----

  function Calls(trace: seq<Event>): nat {
    if trace == [] then 0 else Calls(trace[..|trace| - 1]) + if trace[|trace| - 1].CalledPeer? then 1 else 0
  }

  function Charges(trace: seq<Event>): nat {
    if trace == [] then 0 else Charges(trace[..|trace| - 1]) + if trace[|trace| - 1].ChargedHere? then 1 else 0
  }

  lemma {:induction false} AllCalls(trace: seq<Event>)
    requires forall k :: 0 <= k < |trace| ==> trace[k].CalledPeer?
    ensures Calls(trace) == |trace| && Charges(trace) == 0
  {
    if trace == [] {
    } else {
      AllCalls(trace[..|trace| - 1]);
    }
  }

  /** Whatever the peers answer and however the ring changes: at most six calls, at most one charge
      here and that only as the last thing; a request that may be scheduled is sent once, alone, and
      never charged here, so it cannot be booked twice. */
  lemma AtMostOnce(first: Owner, maxWait: int, world: World, n: nat, o: Outcome)
    requires Explained(first, maxWait, world, n, o)
    ensures 1 <= Calls(o.trace) <= MAX_CALLS && Charges(o.trace) <= 1
    ensures Charges(o.trace) == 1 ==> o.trace[|o.trace| - 1] == ChargedHere
    ensures maxWait > 0 ==> o.trace == [CalledPeer(first.address, true)]
  {
    AllCalls(o.trace[..n + 1]);
    assert maxWait > 0 ==> Ends(maxWait, world, 0);
    if ChargesHere(maxWait, world, n) {
      assert o.trace[..|o.trace| - 1] == o.trace[..n + 1];
    } else {
      assert o.trace[..n + 1] == o.trace;
    }
  }

  /** The reply and the trace tell of the same thing: an answer from a peer is the last call's, an
      answer from here was charged here, and no request is both sent on and charged after success. */
  lemma ReplyMatchesTrace(first: Owner, maxWait: int, world: World, n: nat, o: Outcome)
    requires Explained(first, maxWait, world, n, o)
    ensures o.reply.FromSelf? ==> Charges(o.trace) == 1 && world.local == Some(o.reply.rate)
    ensures o.reply.FromPeer? ==> Charges(o.trace) == 0 && world.call(n) == Answered(o.reply.rate) &&
                                  o.trace[|o.trace| - 1] == CalledPeer(o.reply.owner, maxWait > 0)
    ensures forall k :: 0 <= k < n ==> !world.call(k).Answered?
  {
    AllCalls(o.trace[..n + 1]);
    if ChargesHere(maxWait, world, n) {
      assert o.trace[..|o.trace| - 1] == o.trace[..n + 1];
    } else {
      assert o.trace[..n + 1] == o.trace;
    }
    forall k | 0 <= k < n
      ensures !world.call(k).Answered?
    {
      assert !Ends(maxWait, world, k);
    }
  }

  /** Whom the k-th call should go to: the first owner, and after each call that failed whomever the ring
      then named. */
  ghost predicate GoesTo(first: Owner, world: World, k: nat, address: string) {
    if k == 0 then address == first.address
    else world.lookup(k - 1).Some? && address == world.lookup(k - 1).value.address
  }

  /** The k-th call was interrupted, with the caller still there, and the ring named another node after it. */
  ghost predicate PassedOn(world: World, k: nat) {
    && world.call(k) == Interrupted && !world.gone(k)
    && world.lookup(k).Some? && !world.lookup(k).value.self
  }

  lemma PassedOnBefore(first: Owner, maxWait: int, world: World, n: nat, o: Outcome, k: nat)
    requires Explained(first, maxWait, world, n, o) && k < n
    ensures maxWait <= 0 && PassedOn(world, k)
  {
    assert !Ends(maxWait, world, k);
  }

  lemma CallGoesTo(first: Owner, maxWait: int, world: World, n: nat, o: Outcome, k: nat)
    requires Explained(first, maxWait, world, n, o) && k <= n
    ensures o.trace[k].CalledPeer? && o.trace[k].alone == (maxWait > 0)
    ensures GoesTo(first, world, k, o.trace[k].address)
  {
    assert o.trace[k] == CallEvent(maxWait, first, world, k);
    if k > 0 {
      PassedOnBefore(first, maxWait, world, n, o, k - 1);
    }
  }

  /** Every call goes to the owner of the moment, alone if it may be scheduled. A call is followed by another
      only if it was interrupted, the caller is still there, and the ring names another node. */
  lemma RetriesFollowTheRing(first: Owner, maxWait: int, world: World, n: nat, o: Outcome)
    requires Explained(first, maxWait, world, n, o)
    ensures forall k :: 0 <= k <= n ==>
              && o.trace[k].CalledPeer? && o.trace[k].alone == (maxWait > 0)
              && GoesTo(first, world, k, o.trace[k].address)
    ensures forall k :: 0 <= k < n ==> PassedOn(world, k)
    ensures n > 0 ==> maxWait <= 0
  {
    assert |o.trace| > n;
    hide Explained, GoesTo, PassedOn;
    forall k | 0 <= k <= n
      ensures o.trace[k].CalledPeer? && o.trace[k].alone == (maxWait > 0)
      ensures GoesTo(first, world, k, o.trace[k].address)
    {
      CallGoesTo(first, maxWait, world, n, o, k);
    }
    forall k | 0 <= k < n
      ensures PassedOn(world, k)
    {
      PassedOnBefore(first, maxWait, world, n, o, k);
    }
    if n > 0 {
      PassedOnBefore(first, maxWait, world, n, o, 0);
    }
  }

  /** This node charges the hits if and only if the last call was interrupted with the caller still there, one
      more was allowed, and the ring by then named this node. */
  lemma ChargedHereIff(first: Owner, maxWait: int, world: World, n: nat, o: Outcome)
    requires Explained(first, maxWait, world, n, o)
    ensures ChargedHere in o.trace <==>
            && maxWait <= 0 && world.call(n) == Interrupted && !world.gone(n) && n < 5
            && world.lookup(n).Some? && world.lookup(n).value.self
  {
    if ChargesHere(maxWait, world, n) {
      assert o.trace[n + 1] == ChargedHere;
    }
  }

  /** What each reply means: the last call's rate under the name of the peer that gave it, this node's own
      answer, or the one reason why there is neither. */
  lemma RepliesMean(first: Owner, maxWait: int, world: World, n: nat, o: Outcome)
    requires Explained(first, maxWait, world, n, o)
    ensures o.reply.FromPeer? <==> world.call(n).Answered?
    ensures o.reply.FromPeer? ==> o.reply.rate == world.call(n).rate && GoesTo(first, world, n, o.reply.owner)
    ensures o.reply.FromSelf? <==> ChargedHere in o.trace && world.local.Some?
    ensures o.reply == Error(LocalFailed) <==> ChargedHere in o.trace && world.local.None?
    ensures o.reply == Error(PeerFailed) <==> world.call(n) == Refused || (world.call(n) == Interrupted && maxWait > 0)
    ensures var stopped := world.call(n) == Interrupted && maxWait <= 0;
            && (o.reply == Error(CallerGone) <==> stopped && world.gone(n))
            && (o.reply == Error(NoOwner) <==> stopped && !world.gone(n) && world.lookup(n).None?)
            && (o.reply == Error(NotConnected) <==> stopped && !world.gone(n) && world.lookup(n).Some? && n == 5)
  {
    CallGoesTo(first, maxWait, world, n, o, n);
    assert o.trace[n] == CallEvent(maxWait, first, world, n);
    ChargedHereIff(first, maxWait, world, n, o);
  }

  /** What the world does settles what the request does. */
  lemma ExplainedOnce(first: Owner, maxWait: int, world: World, m: nat, n: nat, x: Outcome, y: Outcome)
    requires Explained(first, maxWait, world, m, x) && Explained(first, maxWait, world, n, y)
    ensures m == n && x == y
  {
    hide TriesAgain, LastReply, CallEvent;
    assert Ends(maxWait, world, m) && Ends(maxWait, world, n);
    assert x.trace == y.trace;
  }

  // ----- A batch of requests -----

  const MAX_BATCH: nat := 1000

  /** A request is turned away, answered here, or forwarded. */
  datatype Item = Direct(reply: Reply) | Forward(first: Owner, maxWait: int, world: World)

  ghost predicate OwnReply(item: Item, reply: Reply) {
    match item
    case Direct(r) => reply == r
    case Forward(first, maxWait, world) => exists n, o :: Explained(first, maxWait, world, n, o) && o.reply == reply
  }

  datatype Async = Async(idx: nat, reply: Reply)

  /** Replies under way carry their index, and every index has one or has its response. */
  ghost predicate Accounted(items: seq<Item>, n: nat, responses: seq<Option<Reply>>, channel: seq<Async>) {
    && |responses| == |items| && n <= |items|
    && (forall k :: 0 <= k < |channel| ==> channel[k].idx < n && OwnReply(items[channel[k].idx], channel[k].reply))
    && (forall i :: 0 <= i < n && responses[i].Some? ==> OwnReply(items[i], responses[i].value))
    && (forall i :: 0 <= i < n && responses[i].None? ==> exists k :: 0 <= k < |channel| && channel[k].idx == i)
  }

  lemma ArriveOne(items: seq<Item>, responses: seq<Option<Reply>>, channel: seq<Async>, k: nat)
    requires Accounted(items, |items|, responses, channel) && k < |channel|
    ensures Accounted(items, |items|, responses[channel[k].idx := Some(channel[k].reply)],
                      channel[..k] + channel[k + 1..])
  {
    hide OwnReply;
    var responses', channel' := responses[channel[k].idx := Some(channel[k].reply)], channel[..k] + channel[k + 1..];
    forall i | 0 <= i < |items| && responses'[i].None?
      ensures exists j :: 0 <= j < |channel'| && channel'[j].idx == i
    {
      var j :| 0 <= j < |channel| && channel[j].idx == i;
      var j' := if j < k then j else j - 1;
      assert channel'[j'] == channel[j];
    }
  }

  lemma SendOne(items: seq<Item>, n: nat, responses: seq<Option<Reply>>, channel: seq<Async>, reply: Reply)
    requires Accounted(items, n, responses, channel) && n < |items| && responses[n].None? && OwnReply(items[n], reply)
    ensures Accounted(items, n + 1, responses, channel + [Async(n, reply)])
    ensures Accounted(items, n + 1, responses[n := Some(reply)], channel)
  {
    hide OwnReply;
    var channel' := channel + [Async(n, reply)];
    forall i | 0 <= i < n + 1 && responses[i].None?
      ensures exists j :: 0 <= j < |channel'| && channel'[j].idx == i
    {
      if i < n {
        var j :| 0 <= j < |channel| && channel[j].idx == i;
        assert channel'[j] == channel[j];
      } else {
        assert channel'[|channel|].idx == i;
      }
    }
  }

  /** However the forwarded requests come back, each request of a batch gets one response, its own,
      at its own index; a batch that is too large is turned away whole. */
  method GetRateLimits(items: seq<Item>) returns (tooLarge: bool, responses: seq<Option<Reply>>)
    ensures tooLarge <==> |items| > MAX_BATCH
    ensures !tooLarge ==> |responses| == |items| && forall i :: 0 <= i < |items| ==>
                            responses[i].Some? && OwnReply(items[i], responses[i].value)
  {
    tooLarge := |items| > MAX_BATCH;
    if tooLarge {
      return tooLarge, [];
    }
    responses := seq(|items|, _ => None);
    var channel: seq<Async> := [];
    for n := 0 to |items|
      invariant Accounted(items, n, responses, channel)
      invariant forall i :: n <= i < |items| ==> responses[i].None?
    {
      hide Explained;
      var item := items[n];
      if item.Direct? {
        SendOne(items, n, responses, channel, item.reply);
        responses := responses[n := Some(item.reply)];
      } else {
        var o, last := AsyncRequest(item.first, item.maxWait, item.world);
        SendOne(items, n, responses, channel, o.reply);
        channel := channel + [Async(n, o.reply)];
      }
    }
    while channel != []
      invariant Accounted(items, |items|, responses, channel)
      decreases |channel|
    {
      var k :| 0 <= k < |channel|;
      ArriveOne(items, responses, channel, k);
      responses := responses[channel[k].idx := Some(channel[k].reply)];
      channel := channel[..k] + channel[k + 1..];
    }
  }
}
