/**
 Sending a batch of requests to a peer: every request gets one response, the one at its own place
 among those that were sent.
 */
module SendBatch {

  /** What the call to the peer came back with. */
  datatype CallResult<R> = CallFailed | Rates(rates: seq<R>)

  datatype Response<R> = Limit(rate: R) | ContextError | PeerError | SizeMismatch

  /** The requests that are sent: those whose caller has not left, in their order. */
  function Live<T>(queue: seq<T>, left: T -> bool): seq<T> {
    if queue == [] then []
    else
      var last := queue[|queue| - 1];
      Live(queue[..|queue| - 1], left) + if left(last) then [] else [last]
  }

  /** The response to the request at j. */
  function Reply<T, R>(queue: seq<T>, left: T -> bool, result: CallResult<R>, j: nat): Response<R>
    requires j < |queue|
  {
    if left(queue[j]) then ContextError else LiveReply(|Live(queue, left)|, result, |Live(queue[..j], left)|)
  }

  /** The response to the request sent at one of so many places. */
  function LiveReply<R>(sent: nat, result: CallResult<R>, place: nat): Response<R> {
    if result.CallFailed? then PeerError
    else if |result.rates| != sent || place >= sent then SizeMismatch
    else Limit(result.rates[place])
  }

  /** A live request is sent at the place counted by the live ones before it. */
  lemma {:induction false} LiveAt<T>(queue: seq<T>, left: T -> bool, j: nat)
    requires j < |queue| && !left(queue[j])
    ensures var place := |Live(queue[..j], left)|; place < |Live(queue, left)| && Live(queue, left)[place] == queue[j]
  {
    var n := |queue| - 1;
    if j < n {
      LiveAt(queue[..n], left, j);
      assert queue[..n][..j] == queue[..j];
    }
  }

  lemma LiveExtends<T>(queue: seq<T>, left: T -> bool, n: nat)
    requires n < |queue|
    ensures Live(queue[..n + 1], left) == Live(queue[..n], left) + if left(queue[n]) then [] else [queue[n]]
  {
    assert queue[..n + 1][..n] == queue[..n];
  }

  /** A peer that answers each request it is sent by itself answers every live caller with their own
      answer, whoever else is in the batch. */
  lemma EveryoneGetsTheirOwn<T, R>(queue: seq<T>, left: T -> bool, answer: T -> R, rates: seq<R>, j: nat)
    requires j < |queue| && !left(queue[j])
    requires |rates| == |Live(queue, left)| && forall i :: 0 <= i < |rates| ==> rates[i] == answer(Live(queue, left)[i])
    ensures Reply(queue, left, Rates(rates), j) == Limit(answer(queue[j]))
  {
    LiveAt(queue, left, j);
  }

  // ----- The batch as it is sent -----

  /** A queued request and its response channel. */
  class Request<Q, R> {
    const request: Q
    const left: bool
    var resp: seq<Response<R>>

    constructor (request: Q, left: bool)
      ensures this.request == request && this.left == left && resp == []
    {
      this.request, this.left, resp := request, left, [];
    }
  }

  predicate HasLeft<Q, R>(r: Request<Q, R>) {
    r.left
  }

  ghost predicate Distinct<T>(queue: seq<T>) {
    forall i, j :: 0 <= i < j < |queue| ==> queue[i] != queue[j]
  }

  lemma {:induction false} LiveDistinct<T>(queue: seq<T>, left: T -> bool)
    requires Distinct(queue)
    ensures Distinct(Live(queue, left)) && forall x :: x in Live(queue, left) ==> x in queue && !left(x)
  {
    if queue == [] {
    } else {
      LiveDistinct(queue[..|queue| - 1], left);
    }
  }

  /** Turns away those who left and collects the others. */
  method Filter<Q, R>(queue: seq<Request<Q, R>>) returns (live: seq<Request<Q, R>>)
    requires Distinct(queue)
    modifies queue
    ensures live == Live(queue, HasLeft)
    ensures forall r :: r in queue ==> r.resp == old(r.resp) + if r.left then [ContextError] else []
  {
    live := [];
    for n := 0 to |queue|
      invariant live == Live(queue[..n], HasLeft)
      invariant forall j :: 0 <= j < n ==>
                  queue[j].resp == old(queue[j].resp) + if queue[j].left then [ContextError] else []
      invariant forall j :: n <= j < |queue| ==> queue[j].resp == old(queue[j].resp)
    {
      LiveExtends(queue, HasLeft, n);
      var r := queue[n];
      if r.left {
        r.resp := r.resp + [ContextError];
      } else {
        live := live + [r];
      }
    }
    assert queue[..|queue|] == queue;
  }

  /** Hands each live request its response. */
  method Deliver<Q, R>(live: seq<Request<Q, R>>, result: CallResult<R>)
    requires Distinct(live)
    modifies live
    ensures forall i :: 0 <= i < |live| ==> live[i].resp == old(live[i].resp) + [LiveReply(|live|, result, i)]
  {
    for n := 0 to |live|
      invariant forall i :: 0 <= i < n ==> live[i].resp == old(live[i].resp) + [LiveReply(|live|, result, i)]
      invariant forall i :: n <= i < |live| ==> live[i].resp == old(live[i].resp)
    {
      var r := live[n];
      if result.CallFailed? {
        r.resp := r.resp + [PeerError];
      } else if |result.rates| != |live| {
        r.resp := r.resp + [SizeMismatch];
      } else {
        r.resp := r.resp + [Limit(result.rates[n])];
      }
    }
  }

  function Bodies<Q, R>(live: seq<Request<Q, R>>): seq<Q> {
    seq(|live|, i requires 0 <= i < |live| => live[i].request)
  }

  /** Everybody in the batch gets one more response, their own; the peer is called once, unless
      everybody has left. */
  method Send<Q, R>(queue: seq<Request<Q, R>>, peer: seq<Q> -> CallResult<R>) returns (called: bool)
    requires Distinct(queue)
    modifies queue
    ensures called <==> Live(queue, HasLeft) != []
    ensures forall j :: 0 <= j < |queue| ==>
              queue[j].resp == old(queue[j].resp) + [Reply(queue, HasLeft, peer(Bodies(Live(queue, HasLeft))), j)]
  {
    var live := Filter(queue);
    LiveDistinct(queue, HasLeft);
    if |live| == 0 {
      NobodyLive(queue);
      return false;
    }
    var result := peer(Bodies(live));
    assert forall i :: 0 <= i < |live| ==> live[i] in live && live[i] in queue;
    label Called:
    Deliver(live, result);
    called := true;
    forall j | 0 <= j < |queue|
      ensures queue[j].resp == old(queue[j].resp) + [Reply(queue, HasLeft, result, j)]
    {
      var r := queue[j];
      if r.left {
        assert r !in live;
      } else {
        LiveAt(queue, HasLeft, j);
        assert r.resp == old@Called(r.resp) + [LiveReply(|live|, result, |Live(queue[..j], HasLeft)|)];
      }
    }
  }

  lemma NobodyLive<Q, R>(queue: seq<Request<Q, R>>)
    requires Live(queue, HasLeft) == []
    ensures forall j :: 0 <= j < |queue| ==> queue[j].left
  {
    forall j | 0 <= j < |queue|
      ensures queue[j].left
    {
      if !queue[j].left {
        LiveAt(queue, HasLeft, j);
      }
    }
  }
}
