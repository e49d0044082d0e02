/**
 A peer client with any number of callers, its batching loop, its batches in flight and one
 shutdown, interleaved in any order. A caller's id stands for its request.
 */
module PeerClient {
  import opened Interval
  import opened SendBatch
  import opened PeerGate

  const QUEUE_SIZE: nat := 1000

  datatype Delivery = Delivery(id: nat, response: Response<int>)

  /** Where requests are: in the channel, in the loop's batch, in a batch being sent, answered. */
  datatype Flow = Flow(queue: seq<nat>, pending: seq<nat>, inflight: seq<seq<nat>>, answers: seq<Delivery>,
                       handed: set<nat>, timer: Timer, running: bool, panicked: bool)

  datatype System = System(gate: Gate, flow: Flow)

  /** Batching can be off for good, and a batch goes out early at its limit. */
  datatype Config = Config(batching: bool, limit: int)

  function Started(c: Config): System {
    System(NEW, Flow([], [], [], [], {}, Timer(false, Idle, false), c.batching, false))
  }

  datatype Action =
    | Call(id: nat, move: Move)            // any step but handing the request over
    | Enqueue(id: nat)
    | SendAlone(id: nat)                   // without batching
    | Shutdown(step: ShutMove)
    | Receive                              // the loop takes a request
    | Drain                                // the loop finds the queue closed and empty
    | ReadTick
    | Elapse                               // the ticker takes a step
    | Answer(batch: nat, left: set<nat>, result: CallResult<int>)   // a call returns; left: who had gone

  predicate Enabled(c: Config, s: System, a: Action) {
    match a
    case Call(i, move) =>
      && MayMove(s.gate, i, move) && move != Hand
      && (move == Cancel ==> c.batching)
    case Enqueue(i) => MayMove(s.gate, i, Hand) && c.batching && (s.gate.closed || |s.flow.queue| < QUEUE_SIZE)
    case SendAlone(i) => MayMove(s.gate, i, Hand)
    case Shutdown(step) => MayShut(s.gate, step)
    case Receive => s.flow.running && s.flow.queue != []
    case Drain => s.flow.running && s.flow.queue == [] && s.gate.closed
    case ReadTick => s.flow.running && s.flow.timer.ticked
    case Elapse => Advanced(s.flow.timer) != s.flow.timer
    case Answer(k, _, _) => k < |s.flow.inflight|
  }

  function Received(c: Config, f: Flow): Flow
    requires f.queue != []
  {
    var pending := f.pending + [f.queue[0]];
    var f' := f.(queue := f.queue[1..], pending := pending);
    if |pending| >= c.limit then f'.(pending := [], inflight := f.inflight + [pending])
    else if |pending| == 1 then f'.(timer := f.timer.(asked := true))
    else f'
  }

  /** What is pending goes out. */
  function Flushed(f: Flow): Flow {
    if f.pending == [] then f else f.(pending := [], inflight := f.inflight + [f.pending])
  }

  function In(left: set<nat>): nat -> bool {
    i => i in left
  }

  function Replies(batch: seq<nat>, left: set<nat>, result: CallResult<int>): seq<Delivery> {
    seq(|batch|, j requires 0 <= j < |batch| => Delivery(batch[j], Reply(batch, In(left), result, j)))
  }

  function Without(batches: seq<seq<nat>>, k: nat): seq<seq<nat>>
    requires k < |batches|
  {
    batches[..k] + batches[k + 1..]
  }

  /** Sending on a closed channel panics. */
  function Next(c: Config, s: System, a: Action): System
    requires Enabled(c, s, a)
  {
    var f := s.flow;
    match a
    case Call(i, move) => s.(gate := Moved(s.gate, i, move))
    case Enqueue(i) =>
      if s.gate.closed then s.(flow := f.(panicked := true))
      else System(Moved(s.gate, i, Hand), f.(queue := f.queue + [i], handed := f.handed + {i}))
    case SendAlone(i) =>
      System(Moved(s.gate, i, Hand), f.(inflight := f.inflight + [[i]], handed := f.handed + {i}))
    case Shutdown(step) => s.(gate := Shut(s.gate, step))
    case Receive => s.(flow := Received(c, f))
    case Drain => s.(flow := Flushed(f).(running := false))
    case ReadTick => s.(flow := Flushed(f.(timer := f.timer.(ticked := false))))
    case Elapse => s.(flow := f.(timer := Advanced(f.timer)))
    case Answer(k, left, result) =>
      s.(flow := f.(inflight := Without(f.inflight, k), answers := f.answers + Replies(f.inflight[k], left, result)))
  }

  // ----- Each request in one place -----

  function Spread(batches: seq<seq<nat>>): multiset<nat> {
    if batches == [] then multiset{} else Spread(batches[..|batches| - 1]) + multiset(batches[|batches| - 1])
  }

  function Ids(answers: seq<Delivery>): seq<nat> {
    seq(|answers|, j requires 0 <= j < |answers| => answers[j].id)
  }

  function Places(f: Flow): multiset<nat> {
    multiset(f.queue) + multiset(f.pending) + Spread(f.inflight) + multiset(Ids(f.answers))
  }

  lemma SpreadExtends(batches: seq<seq<nat>>, batch: seq<nat>)
    ensures Spread(batches + [batch]) == Spread(batches) + multiset(batch)
  {
    assert (batches + [batch])[..|batches|] == batches;
  }

  lemma WithoutInit(batches: seq<seq<nat>>, k: nat)
    requires k < |batches|
    ensures var n := |batches| - 1;
            Without(batches, k) == if k < n then Without(batches[..n], k) + [batches[n]] else batches[..n]
  {
  }

  lemma {:induction false} SpreadWithout(batches: seq<seq<nat>>, k: nat)
    requires k < |batches|
    ensures Spread(batches) == Spread(Without(batches, k)) + multiset(batches[k])
  {
    hide Without;
    var n := |batches| - 1;
    WithoutInit(batches, k);
    assert Spread(batches) == Spread(batches[..n]) + multiset(batches[n]);
    hide Spread;
    if k < n {
      SpreadWithout(batches[..n], k);
      SpreadExtends(Without(batches[..n], k), batches[n]);
    }
  }

  lemma RepliesIds(answers: seq<Delivery>, batch: seq<nat>, left: set<nat>, result: CallResult<int>)
    ensures multiset(Ids(answers + Replies(batch, left, result))) == multiset(Ids(answers)) + multiset(batch)
  {
    assert Ids(answers + Replies(batch, left, result)) == Ids(answers) + batch;
  }

  lemma HeadTail(queue: seq<nat>)
    requires queue != []
    ensures multiset(queue) == multiset{queue[0]} + multiset(queue[1..])
  {
    assert queue == [queue[0]] + queue[1..];
  }

  lemma FlushKeepsPlaces(f: Flow)
    ensures Places(Flushed(f)) == Places(f)
  {
    hide Spread, Ids;
    SpreadExtends(f.inflight, f.pending);
  }

  lemma ReceiveKeepsPlaces(c: Config, f: Flow)
    requires f.queue != []
    ensures Places(Received(c, f)) == Places(f)
  {
    hide Spread, Ids;
    HeadTail(f.queue);
    SpreadExtends(f.inflight, f.pending + [f.queue[0]]);
  }

  lemma AnswerKeepsPlaces(f: Flow, k: nat, left: set<nat>, result: CallResult<int>)
    requires k < |f.inflight|
    ensures Places(f.(inflight := Without(f.inflight, k),
                      answers := f.answers + Replies(f.inflight[k], left, result))) ==
            Places(f)
  {
    hide Spread, Ids, Replies, Without;
    SpreadWithout(f.inflight, k);
    RepliesIds(f.answers, f.inflight[k], left, result);
  }

  lemma HandOver(f: Flow, i: nat)
    requires Places(f) == multiset(f.handed) && i !in f.handed
    ensures Places(f.(queue := f.queue + [i], handed := f.handed + {i})) == multiset(f.handed + {i})
    ensures Places(f.(inflight := f.inflight + [[i]], handed := f.handed + {i})) == multiset(f.handed + {i})
  {
    hide Spread, Ids;
    SpreadExtends(f.inflight, [i]);
    assert multiset(f.handed + {i}) == multiset(f.handed) + multiset{i};
  }

  // ----- What every step keeps -----

  /** Every request handed over is in exactly one place; a pending batch has a tick on its way and
      is below its limit; a stopped loop has nothing left. */
  ghost predicate FlowInv(c: Config, f: Flow) {
    && Places(f) == multiset(f.handed)
    && (f.pending != [] ==> TickComing(f.timer) && |f.pending| < c.limit)
    && (!f.running ==> f.queue == [] && f.pending == [])
    && !f.panicked
  }

  predicate Handed(phase: PeerGate.Phase) {
    phase.Waiting? || phase.Leaving? || phase.Gone?
  }

  /** Who has handed over a request, and who still may. */
  ghost predicate Linked(c: Config, s: System) {
    && (forall i :: i in s.flow.handed ==> i in s.gate.callers && Handed(s.gate.callers[i]))
    && (forall i :: i in s.gate.callers && s.gate.callers[i] == Waiting ==> i in s.flow.handed)
    && (!s.flow.running ==> s.gate.closed || !c.batching)
  }

  ghost predicate Inv(c: Config, s: System) {
    GateInv(s.gate) && FlowInv(c, s.flow) && Linked(c, s)
  }

  lemma CallKeepsInv(c: Config, s: System, i: nat, move: Move)
    requires Inv(c, s) && MayMove(s.gate, i, move) && move != Hand
    ensures Inv(c, s.(gate := Moved(s.gate, i, move)))
  {
    hide GateInv, FlowInv;
    MoveKeepsGate(s.gate, i, move);
  }

  lemma SendingIsOpen(c: Config, s: System, i: nat)
    requires Inv(c, s) && MayMove(s.gate, i, Hand)
    ensures !s.gate.closed && i !in s.flow.handed
    ensures c.batching ==> s.flow.running
  {
    hide FlowInv;
    assert Fits(s.gate, i, s.gate.callers[i]);
  }

  lemma HandKeepsInv(c: Config, s: System, i: nat)
    requires Inv(c, s) && MayMove(s.gate, i, Hand)
    ensures c.batching ==> Inv(c, System(Moved(s.gate, i, Hand),
                                         s.flow.(queue := s.flow.queue + [i], handed := s.flow.handed + {i})))
    ensures Inv(c, System(Moved(s.gate, i, Hand),
                          s.flow.(inflight := s.flow.inflight + [[i]], handed := s.flow.handed + {i})))
  {
    hide GateInv, Places;
    SendingIsOpen(c, s, i);
    MoveKeepsGate(s.gate, i, Hand);
    HandOver(s.flow, i);
  }

  lemma ShutdownKeepsInv(c: Config, s: System, step: ShutMove)
    requires Inv(c, s) && MayShut(s.gate, step)
    ensures Inv(c, s.(gate := Shut(s.gate, step)))
  {
    hide GateInv, FlowInv;
    ShutKeepsGate(s.gate, step);
  }

  lemma LoopKeepsInv(c: Config, s: System, a: Action)
    requires Inv(c, s) && Enabled(c, s, a) && (a.Receive? || a.Drain? || a.ReadTick? || a.Elapse? || a.Answer?)
    ensures Inv(c, Next(c, s, a))
  {
    hide GateInv, Places, MayMove, MayShut, Replies, Without;
    var f := s.flow;
    match a
    case Receive => ReceiveKeepsPlaces(c, f);
    case Drain =>
      FlushKeepsPlaces(f);
      SamePlaces(Flushed(f), Flushed(f).(running := false));
    case ReadTick =>
      SamePlaces(f, f.(timer := f.timer.(ticked := false)));
      FlushKeepsPlaces(f.(timer := f.timer.(ticked := false)));
    case Elapse => SamePlaces(f, f.(timer := Advanced(f.timer)));
    case Answer(k, left, result) => AnswerKeepsPlaces(f, k, left, result);
  }

  lemma SamePlaces(f: Flow, f': Flow)
    requires f.queue == f'.queue && f.pending == f'.pending && f.inflight == f'.inflight && f.answers == f'.answers
    ensures Places(f) == Places(f')
  {
  }

  lemma StepKeepsInv(c: Config, s: System, a: Action)
    requires Inv(c, s) && Enabled(c, s, a)
    ensures Inv(c, Next(c, s, a))
  {
    hide Inv, Moved, Shut, Received, Flushed, Replies, Without, MayShut;
    match a
    case Call(i, move) => CallKeepsInv(c, s, i, move);
    case Enqueue(i) =>
      SendingIsOpen(c, s, i);
      HandKeepsInv(c, s, i);
    case SendAlone(i) => HandKeepsInv(c, s, i);
    case Shutdown(step) => ShutdownKeepsInv(c, s, step);
    case Receive => LoopKeepsInv(c, s, a);
    case Drain => LoopKeepsInv(c, s, a);
    case ReadTick => LoopKeepsInv(c, s, a);
    case Elapse => LoopKeepsInv(c, s, a);
    case Answer(_, _, _) => LoopKeepsInv(c, s, a);
  }

  // ----- Runs -----

  /** Where a run leads; an action that cannot happen is passed over. */
  function After(c: Config, run: seq<Action>): System {
    if run == [] then Started(c)
    else
      var before, a := After(c, run[..|run| - 1]), run[|run| - 1];
      if Enabled(c, before, a) then Next(c, before, a) else before
  }

  lemma {:induction false} RunKeepsInv(c: Config, run: seq<Action>)
    ensures Inv(c, After(c, run))
  {
    if run == [] {
      StartsWell(c);
    } else {
      hide Inv, Enabled, Next;
      var n := |run| - 1;
      RunKeepsInv(c, run[..n]);
      if Enabled(c, After(c, run[..n]), run[n]) {
        StepKeepsInv(c, After(c, run[..n]), run[n]);
      }
    }
  }

  lemma StartsWell(c: Config)
    ensures Inv(c, Started(c))
  {
    assert Active(NEW.callers) == {};
    assert Ids([]) == [];
  }

  /** No run ever sends on the closed queue: from the moment it is being closed no caller stands
      between the check of the flag and the send. */
  lemma NoSendOnClosedQueue(c: Config, run: seq<Action>)
    ensures var s := After(c, run);
            && !s.flow.panicked
            && (s.gate.queueClosed || s.gate.closed ==> forall i :: i in s.gate.callers ==> !Inside(s.gate.callers[i]))
  {
    hide After;
    RunKeepsInv(c, run);
    var s := After(c, run);
    if s.gate.queueClosed || s.gate.closed {
      forall i | i in s.gate.callers
        ensures !Inside(s.gate.callers[i])
      {
        NobodyInside(s.gate, i);
      }
    }
  }

  /** In every run each request handed over is in exactly one place, so it is sent once and answered
      at most once, and nobody else is answered; when nothing is under way, all are answered. */
  lemma AnsweredExactlyOnce(c: Config, run: seq<Action>, i: nat)
    ensures var f := After(c, run).flow;
            && Places(f)[i] == (if i in f.handed then 1 else 0)
            && multiset(Ids(f.answers))[i] <= Places(f)[i]
            && (f.queue == [] && f.pending == [] && f.inflight == [] ==>
                  multiset(Ids(f.answers)) == multiset(f.handed))
  {
    hide After;
    RunKeepsInv(c, run);
  }

  /** A pending batch always has a tick on its way, and is smaller than the limit. */
  lemma NoLostWakeup(c: Config, run: seq<Action>)
    ensures var f := After(c, run).flow; f.pending != [] ==> f.running && TickComing(f.timer) && |f.pending| < c.limit
  {
    hide After;
    RunKeepsInv(c, run);
  }

  /** The queue is a channel of bounded size: no run overfills it. */
  lemma {:induction false} QueueIsBounded(c: Config, run: seq<Action>)
    ensures |After(c, run).flow.queue| <= QUEUE_SIZE
  {
    if run == [] {
    } else {
      hide Inv, Moved, Shut, Replies, Without, MayMove, MayShut;
      var n := |run| - 1;
      QueueIsBounded(c, run[..n]);
      RunKeepsInv(c, run[..n]);
      var before := After(c, run[..n]);
      if run[n].Enqueue? && Enabled(c, before, run[n]) {
        SendingIsOpen(c, before, run[n].id);
      }
    }
  }

  /** A request the loop takes waits for others until the batch is full, and then the whole batch goes out, of
      exactly the size of the limit. */
  lemma BatchesFill(c: Config, s: System)
    requires Inv(c, s) && Enabled(c, s, Receive)
    ensures var f, f' := s.flow, Next(c, s, Receive).flow;
            var batch := f.pending + [f.queue[0]];
            && f'.queue == f.queue[1..] && f'.answers == f.answers
            && (|batch| < c.limit ==> f'.pending == batch && f'.inflight == f.inflight)
            && (|batch| >= c.limit ==>
                  && f'.pending == [] && f'.inflight == f.inflight + [batch] && (1 <= c.limit ==> |batch| == c.limit))
  {
    hide GateInv, Places, Linked;
  }

  // ----- Everybody gets their own -----

  /** A peer that, when its answer has the right size, answers each request by itself. */
  ghost predicate Honest(s: System, a: Action, answer: nat -> int) {
    a.Answer? && a.batch < |s.flow.inflight| && a.result.Rates? ==>
      var live := Live(s.flow.inflight[a.batch], In(a.left));
      |a.result.rates| == |live| ==> forall p :: 0 <= p < |live| ==> a.result.rates[p] == answer(live[p])
  }

  ghost predicate Own(answers: seq<Delivery>, answer: nat -> int) {
    forall j :: 0 <= j < |answers| && answers[j].response.Limit? ==> answers[j].response.rate == answer(answers[j].id)
  }

  lemma RepliesAreOwn(s: System, a: Action, answer: nat -> int)
    requires a.Answer? && a.batch < |s.flow.inflight| && Honest(s, a, answer)
    ensures Own(Replies(s.flow.inflight[a.batch], a.left, a.result), answer)
  {
    var batch := s.flow.inflight[a.batch];
    var replies := Replies(batch, a.left, a.result);
    forall j | 0 <= j < |replies| && replies[j].response.Limit?
      ensures replies[j].response.rate == answer(replies[j].id)
    {
      EveryoneGetsTheirOwn(batch, In(a.left), answer, a.result.rates, j);
    }
  }

  lemma StepKeepsOwn(c: Config, s: System, a: Action, answer: nat -> int)
    requires Enabled(c, s, a) && Own(s.flow.answers, answer) && Honest(s, a, answer)
    ensures Own(Next(c, s, a).flow.answers, answer)
  {
    hide Honest, Replies, Moved, Shut, MayMove, MayShut;
    if a.Answer? {
      RepliesAreOwn(s, a, answer);
    }
  }

  /** Whatever batches the requests travelled in, no caller ever gets another's rate limit. */
  lemma {:induction false} NobodyGetsAnothers(c: Config, run: seq<Action>, answer: nat -> int)
    requires forall n :: 0 <= n < |run| ==> Honest(After(c, run[..n]), run[n], answer)
    ensures Own(After(c, run).flow.answers, answer)
  {
    if run == [] {
    } else {
      hide Honest, Own, Enabled, Next;
      var n := |run| - 1;
      forall m | 0 <= m < n
        ensures Honest(After(c, run[..n][..m]), run[..n][m], answer)
      {
        assert run[..n][..m] == run[..m];
      }
      NobodyGetsAnothers(c, run[..n], answer);
      var before, a := After(c, run[..n]), run[n];
      if Enabled(c, before, a) {
        StepKeepsOwn(c, before, a, answer);
      }
    }
  }

  // ----- Everybody gets an answer worth having -----

  /** The peer answers as many requests as it was sent, each by itself. */
  ghost predicate Answers(s: System, a: Action, answer: nat -> int) {
    a.Answer? && a.batch < |s.flow.inflight| ==>
      var live := Live(s.flow.inflight[a.batch], In(a.left));
      && a.result.Rates? && |a.result.rates| == |live|
      && forall p :: 0 <= p < |live| ==> a.result.rates[p] == answer(live[p])
  }

  /** What a caller should get, by whether it had left. */
  function Fair(id: nat, left: set<nat>, answer: nat -> int): Delivery {
    Delivery(id, if id in left then ContextError else Limit(answer(id)))
  }

  /** When such a call returns, every caller of the batch that is still there is delivered their own rate
      limit, every one that has left is told so, and nobody else is told anything. */
  lemma AnswerDelivers(c: Config, s: System, a: Action, answer: nat -> int)
    requires Enabled(c, s, a) && a.Answer? && Answers(s, a, answer)
    ensures var batch, told, after := s.flow.inflight[a.batch], s.flow.answers, Next(c, s, a).flow.answers;
            && |after| == |told| + |batch| && after[..|told|] == told
            && forall j :: 0 <= j < |batch| ==> after[|told| + j] == Fair(batch[j], a.left, answer)
  {
    AnswerAppends(c, s, a);
    hide Next, Enabled, Live, Fair, Reply;
    var batch, told, after := s.flow.inflight[a.batch], s.flow.answers, Next(c, s, a).flow.answers;
    forall j | 0 <= j < |batch|
      ensures after[|told| + j] == Fair(batch[j], a.left, answer)
    {
      ReplyIsFair(batch, a.left, a.result.rates, answer, j);
    }
  }

  lemma AnswerAppends(c: Config, s: System, a: Action)
    requires Enabled(c, s, a) && a.Answer?
    ensures a.batch < |s.flow.inflight|
    ensures Next(c, s, a).flow.answers == s.flow.answers + Replies(s.flow.inflight[a.batch], a.left, a.result)
  {
    hide Moved, Shut, MayMove, MayShut, Replies, Without;
  }

  lemma ReplyIsFair(batch: seq<nat>, left: set<nat>, rates: seq<int>, answer: nat -> int, j: nat)
    requires j < |batch| && |rates| == |Live(batch, In(left))|
    requires forall p :: 0 <= p < |rates| ==> rates[p] == answer(Live(batch, In(left))[p])
    ensures Delivery(batch[j], Reply(batch, In(left), Rates(rates), j)) == Fair(batch[j], left, answer)
  {
    if batch[j] !in left {
      EveryoneGetsTheirOwn(batch, In(left), answer, rates, j);
    }
  }

  lemma OthersDeliverNothing(c: Config, s: System, a: Action)
    requires Enabled(c, s, a) && !a.Answer?
    ensures Next(c, s, a).flow.answers == s.flow.answers
  {
    hide Moved, Shut, MayMove, MayShut;
  }

  /** Everybody who had left by the time some call returned. */
  function Leavers(run: seq<Action>): set<nat> {
    if run == [] then {}
    else
      var last := run[|run| - 1];
      Leavers(run[..|run| - 1]) + if last.Answer? then last.left else {}
  }

  ghost predicate AllFair(answers: seq<Delivery>, leavers: set<nat>, answer: nat -> int) {
    forall j :: 0 <= j < |answers| ==>
      || answers[j].response == Limit(answer(answers[j].id))
      || (answers[j].response == ContextError && answers[j].id in leavers)
  }

  lemma StepIsFair(c: Config, s: System, a: Action, leavers: set<nat>, answer: nat -> int)
    requires Enabled(c, s, a) && Answers(s, a, answer) && AllFair(s.flow.answers, leavers, answer)
    ensures AllFair(Next(c, s, a).flow.answers, leavers + (if a.Answer? then a.left else {}), answer)
  {
    hide Next, Answers, MayMove, MayShut;
    var told, after := s.flow.answers, Next(c, s, a).flow.answers;
    if a.Answer? {
      AnswerDelivers(c, s, a, answer);
      forall j | 0 <= j < |after|
        ensures || after[j].response == Limit(answer(after[j].id))
                || (after[j].response == ContextError && after[j].id in leavers + a.left)
      {
        if j < |told| {
          assert after[j] == after[..|told|][j];
        } else {
          var batch, i := s.flow.inflight[a.batch], j - |told|;
          assert after[|told| + i] == Fair(batch[i], a.left, answer);
        }
      }
    } else {
      OthersDeliverNothing(c, s, a);
    }
  }

  lemma {:induction false} RunIsFair(c: Config, run: seq<Action>, answer: nat -> int)
    requires forall n :: 0 <= n < |run| ==> Answers(After(c, run[..n]), run[n], answer)
    ensures AllFair(After(c, run).flow.answers, Leavers(run), answer)
  {
    if run == [] {
    } else {
      hide Answers, AllFair, Enabled, Next;
      var n := |run| - 1;
      forall m | 0 <= m < n
        ensures Answers(After(c, run[..n][..m]), run[..n][m], answer)
      {
        assert run[..n][..m] == run[..m];
      }
      RunIsFair(c, run[..n], answer);
      var before, a := After(c, run[..n]), run[n];
      if Enabled(c, before, a) {
        StepIsFair(c, before, a, Leavers(run[..n]), answer);
      } else {
        MoreLeavers(before.flow.answers, Leavers(run[..n]), Leavers(run), answer);
      }
    }
  }

  lemma MoreLeavers(answers: seq<Delivery>, some: set<nat>, more: set<nat>, answer: nat -> int)
    requires AllFair(answers, some, answer) && some <= more
    ensures AllFair(answers, more, answer)
  {
  }

  /** In every run with a peer that answers, once nothing is under way everybody who handed over a request
      has been delivered their own rate limit, unless they had left. */
  lemma EveryoneIsServed(c: Config, run: seq<Action>, answer: nat -> int, id: nat)
    requires forall n :: 0 <= n < |run| ==> Answers(After(c, run[..n]), run[n], answer)
    requires var f := After(c, run).flow; Settled(f) && id in f.handed
    ensures var answers := After(c, run).flow.answers;
            Delivery(id, Limit(answer(id))) in answers || (id in Leavers(run) && Delivery(id, ContextError) in answers)
  {
    hide After, Answers, Leavers;
    RunIsFair(c, run, answer);
    RunKeepsInv(c, run);
    SettledAnswers(c, After(c, run), id);
    var answers := After(c, run).flow.answers;
    var j :| 0 <= j < |answers| && answers[j].id == id;
    assert answers[j] in answers;
  }

  // ----- Progress -----

  /** What the client does by itself, whatever its callers do. */
  predicate IsWork(a: Action) {
    a.Receive? || a.Drain? || a.ReadTick? || a.Elapse? || a.Answer?
  }

  function TimerWork(t: Timer): nat {
    (if t.asked then 4 else 0) + (match t.phase case Idle => 0 case Sleeping => 3 case Delivering => 2) +
    if t.ticked then 1 else 0
  }

  function WorkLeft(f: Flow): nat {
    20 * |f.queue| + (if f.pending == [] then 0 else 10) + 2 * |f.inflight| + TimerWork(f.timer) +
    if f.running then 1 else 0
  }

  lemma WorkShrinks(c: Config, s: System, a: Action)
    requires Enabled(c, s, a) && IsWork(a)
    ensures WorkLeft(Next(c, s, a).flow) < WorkLeft(s.flow)
  {
    hide Replies, MayMove, MayShut, Moved, Shut;
  }

  predicate Settled(f: Flow) {
    f.queue == [] && f.pending == [] && f.inflight == []
  }

  /** While a request is unanswered, the client has something to do. */
  lemma NeverStuck(c: Config, s: System) returns (a: Action)
    requires Inv(c, s) && !Settled(s.flow)
    ensures Enabled(c, s, a) && IsWork(a)
  {
    hide GateInv, Places;
    var f := s.flow;
    if f.inflight != [] {
      a := Answer(0, {}, CallFailed);
    } else if f.queue != [] {
      a := Receive;
    } else if f.timer.ticked {
      a := ReadTick;
    } else {
      a := Elapse;
    }
  }

  function Worked(c: Config, s: System, work: seq<Action>): System {
    if work == [] then s
    else
      var before, a := Worked(c, s, work[..|work| - 1]), work[|work| - 1];
      if Enabled(c, before, a) then Next(c, before, a) else before
  }

  /** The client's own steps, each possible in its turn. */
  predicate WorkRun(c: Config, s: System, work: seq<Action>) {
    forall n :: 0 <= n < |work| ==> IsWork(work[n]) && Enabled(c, Worked(c, s, work[..n]), work[n])
  }

  /** The client's own steps cannot go on for ever, and when none is left every request that was
      handed over has its answer. */
  lemma {:induction false} WorkSettles(c: Config, s: System, work: seq<Action>)
    requires Inv(c, s) && WorkRun(c, s, work)
    ensures var s' := Worked(c, s, work);
            && Inv(c, s') && |work| + WorkLeft(s'.flow) <= WorkLeft(s.flow)
            && ((forall a :: IsWork(a) ==> !Enabled(c, s', a)) ==>
                  Settled(s'.flow) && multiset(Ids(s'.flow.answers)) == multiset(s'.flow.handed))
  {
    hide Enabled, Next, WorkLeft, IsWork;
    if work == [] {
    } else {
      var n := |work| - 1;
      forall m | 0 <= m < n
        ensures IsWork(work[..n][m]) && Enabled(c, Worked(c, s, work[..n][..m]), work[..n][m])
      {
        assert work[..n][..m] == work[..m];
      }
      WorkSettles(c, s, work[..n]);
      StepKeepsInv(c, Worked(c, s, work[..n]), work[n]);
      WorkShrinks(c, Worked(c, s, work[..n]), work[n]);
    }
    var s' := Worked(c, s, work);
    hide Worked;
    if !Settled(s'.flow) {
      var a := NeverStuck(c, s');
    } else {
      SettledIsAnswered(c, s');
    }
  }

  lemma SettledIsAnswered(c: Config, s: System)
    requires Inv(c, s) && Settled(s.flow)
    ensures multiset(Ids(s.flow.answers)) == multiset(s.flow.handed)
  {
    hide GateInv, Ids;
  }

  // ----- Shutdown gets through -----

  function ShutLeft(shut: Shutting): nat {
    match shut
    case Open => 5
    case Draining => 4
    case Drained => 3
    case Flagged => 2
    case Closed => 1
    case Over => 0
  }

  /** All there is to do before the shutdown is over. */
  function LeftToDo(s: System): nat {
    30 * Ranks(s.gate.callers) + ShutLeft(s.gate.shut) + WorkLeft(s.flow)
  }

  /** A new caller arrives. */
  predicate Arrives(a: Action) {
    a.Call? && a.move.Begin?
  }

  lemma HandingIsLess(c: Config, s: System, a: Action)
    requires Inv(c, s) && ShuttingDown(s.gate.shut) && Enabled(c, s, a) && (a.Enqueue? || a.SendAlone?)
    ensures var s' := Next(c, s, a); s'.gate.shut == s.gate.shut && LeftToDo(s') < LeftToDo(s)
  {
    hide Ranks, GateInv, FlowInv, Moved;
    SendingIsOpen(c, s, a.id);
    CallersLeave(s.gate, a.id, Hand);
  }

  /** Every step but an arrival leaves less to do, and an arrival no more, until the shutdown is over. */
  lemma ShutdownShrinks(c: Config, s: System, a: Action)
    requires Inv(c, s) && ShuttingDown(s.gate.shut) && Enabled(c, s, a)
    ensures var s' := Next(c, s, a);
            && (ShuttingDown(s'.gate.shut) || s'.gate.shut.Over?)
            && LeftToDo(s') <= LeftToDo(s) - if Arrives(a) then 0 else 1
  {
    hide Ranks, GateInv, FlowInv, Linked, WorkLeft, Received, Flushed, Replies, Without, Moved;
    match a
    case Call(i, move) => CallersLeave(s.gate, i, move);
    case Enqueue(_) => HandingIsLess(c, s, a);
    case SendAlone(_) => HandingIsLess(c, s, a);
    case Shutdown(_) =>
    case Receive => WorkShrinks(c, s, a);
    case Drain => WorkShrinks(c, s, a);
    case ReadTick => WorkShrinks(c, s, a);
    case Elapse => WorkShrinks(c, s, a);
    case Answer(_, _, _) => WorkShrinks(c, s, a);
  }

  /** A step that nobody can put off: not an arrival, not a caller giving up, and of those who wait only
      one who has been answered stops. */
  predicate Due(s: System, a: Action) {
    a.Call? ==>
      match a.move
      case Begin => false
      case Cancel => false
      case CheckContext(left) => !left
      case Stop => a.id in Ids(s.flow.answers)
      case _ => true
  }

  /** Until the shutdown is over some step is due, even if no caller ever gives up. */
  lemma ShutdownNeverStuck(c: Config, s: System) returns (a: Action)
    requires Inv(c, s) && ShuttingDown(s.gate.shut)
    ensures Enabled(c, s, a) && Due(s, a)
  {
    hide Places, Ids, FlowInv, GateInv;
    match s.gate.shut
    case Drained => a := Shutdown(ShutFlag);
    case Flagged => a := Shutdown(ShutClose);
    case Closed => a := Shutdown(ShutUnlock);
    case Draining =>
      if s.gate.wg == 0 {
        a := Shutdown(ShutWait);
      } else {
        var i := SomebodyInside(s.gate);
        a := NextOf(c, s, i);
      }
  }

  lemma SettledAnswers(c: Config, s: System, i: nat)
    requires Inv(c, s) && Settled(s.flow) && i in s.flow.handed
    ensures i in Ids(s.flow.answers)
  {
    hide Ids, GateInv, FlowInv;
    SettledIsAnswered(c, s);
    assert i in multiset(Ids(s.flow.answers));
  }

  /** What gets a caller inside closer to leaving. */
  lemma NextOf(c: Config, s: System, i: nat) returns (a: Action)
    requires Inv(c, s) && i in s.gate.callers && Counts(s.gate.callers[i]) && !s.gate.callers[i].Added?
    ensures Enabled(c, s, a) && Due(s, a)
  {
    hide Places, Ids, GateInv;
    match s.gate.callers[i]
    case Counted => a := Call(i, CheckQueue);
    case Checked => a := Call(i, CheckContext(false));
    case Sending =>
      if !c.batching {
        a := SendAlone(i);
      } else if |s.flow.queue| < QUEUE_SIZE {
        a := Enqueue(i);
      } else {
        a := Receive;
      }
    case Waiting =>
      if Settled(s.flow) {
        SettledAnswers(c, s, i);
        a := Call(i, Stop);
      } else {
        a := NeverStuck(c, s);
      }
    case Leaving => a := Call(i, Finish);
  }

  /** A run in which every step is possible in its turn. */
  predicate Possible(c: Config, s: System, run: seq<Action>) {
    forall n :: 0 <= n < |run| ==> Enabled(c, Worked(c, s, run[..n]), run[n])
  }

  /** How many of the steps are no arrivals. */
  function Steps(run: seq<Action>): nat {
    if run == [] then 0 else Steps(run[..|run| - 1]) + if Arrives(run[|run| - 1]) then 0 else 1
  }

  lemma PossibleInit(c: Config, s: System, run: seq<Action>)
    requires Possible(c, s, run) && run != []
    ensures Possible(c, s, run[..|run| - 1])
    ensures Enabled(c, Worked(c, s, run[..|run| - 1]), run[|run| - 1])
  {
    hide Enabled, Worked;
    var init := run[..|run| - 1];
    forall n | 0 <= n < |init|
      ensures Enabled(c, Worked(c, s, init[..n]), init[n])
    {
      assert init[..n] == run[..n];
    }
  }

  lemma OverStays(c: Config, s: System, a: Action)
    requires s.gate.shut.Over? && Enabled(c, s, a)
    ensures Next(c, s, a).gate.shut.Over?
  {
    hide Received, Flushed, Replies, Without;
  }

  /** Shutdown gets through: once it has taken the mutex, however many callers arrive and whatever the others
      do, there are no more steps than were left to do before it is over; and as long as it is not, one is due. */
  lemma {:induction false} ShutdownGetsThrough(c: Config, s: System, run: seq<Action>)
    requires Inv(c, s) && ShuttingDown(s.gate.shut) && Possible(c, s, run)
    ensures var s' := Worked(c, s, run);
            && Inv(c, s')
            && (s'.gate.shut.Over? || (ShuttingDown(s'.gate.shut) && Steps(run) + LeftToDo(s') <= LeftToDo(s)))
            && ((forall a :: Due(s', a) ==> !Enabled(c, s', a)) ==> s'.gate.shut.Over?)
  {
    hide Enabled, Next, LeftToDo, Inv, ShuttingDown, Due, Arrives;
    if run == [] {
    } else {
      var n := |run| - 1;
      PossibleInit(c, s, run);
      ShutdownGetsThrough(c, s, run[..n]);
      var before := Worked(c, s, run[..n]);
      StepKeepsInv(c, before, run[n]);
      if before.gate.shut.Over? {
        OverStays(c, before, run[n]);
      } else {
        ShutdownShrinks(c, before, run[n]);
      }
    }
    var s' := Worked(c, s, run);
    hide Worked;
    if !s'.gate.shut.Over? {
      var a := ShutdownNeverStuck(c, s');
    }
  }
}
