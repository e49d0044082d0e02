/**
 Callers of a peer client and its shutdown: a mutex, a wait group and two flags keep anyone from
 sending on the queue once it is closed.
 */
module PeerGate {

  /** Where a caller stands, from taking the mutex to leaving the wait group. */
  datatype Phase = Arriving | Locked | Added | Counted | Checked | Sending | Waiting | Leaving | Gone

  /** Where the shutdown stands: waiting for the callers, done waiting, flag set, queue closed, unlocked. */
  datatype Shutting = Open | Draining | Drained | Flagged | Closed | Over

  datatype Mutex = Free | ByCaller(id: nat) | ByShutdown

  datatype Gate = Gate(callers: map<nat, Phase>, mutex: Mutex, wg: int, shut: Shutting, queueClosed: bool, closed: bool)

  const NEW := Gate(map[], Free, 0, Open, false, false)

  datatype Move =
    | Begin | Lock | Add | Unlock
    | CallPeer         // a call that never touches the queue
    | CheckQueue
    | CheckContext(left: bool)
    | Hand             // the request is queued or sent
    | Cancel           // the caller leaves instead
    | Stop             // answered, or tired of waiting
    | Finish

  datatype ShutMove = ShutLock | ShutWait | ShutFlag | ShutClose | ShutUnlock

  predicate At(g: Gate, i: nat, phase: Phase) {
    i in g.callers && g.callers[i] == phase
  }

  predicate MayMove(g: Gate, i: nat, move: Move) {
    match move
    case Begin => i !in g.callers
    case Lock => At(g, i, Arriving) && g.mutex == Free
    case Add => At(g, i, Locked)
    case Unlock => At(g, i, Added)
    case CallPeer => At(g, i, Counted)
    case CheckQueue => At(g, i, Counted)
    case CheckContext(_) => At(g, i, Checked)
    case Hand => At(g, i, Sending)
    case Cancel => At(g, i, Sending)
    case Stop => At(g, i, Waiting)
    case Finish => At(g, i, Leaving)
  }

  function Put(g: Gate, i: nat, phase: Phase): Gate {
    g.(callers := g.callers[i := phase])
  }

  function Moved(g: Gate, i: nat, move: Move): Gate {
    match move
    case Begin => Put(g, i, Arriving)
    case Lock => Put(g, i, Locked).(mutex := ByCaller(i))
    case Add => Put(g, i, Added).(wg := g.wg + 1)
    case Unlock => Put(g, i, Counted).(mutex := Free)
    case CallPeer => Put(g, i, Leaving)
    case CheckQueue => Put(g, i, if g.queueClosed then Leaving else Checked)
    case CheckContext(left) => Put(g, i, if left then Leaving else Sending)
    case Hand => Put(g, i, Waiting)
    case Cancel => Put(g, i, Leaving)
    case Stop => Put(g, i, Leaving)
    case Finish => Put(g, i, Gone).(wg := g.wg - 1)
  }

  predicate MayShut(g: Gate, move: ShutMove) {
    match move
    case ShutLock => g.shut == Open && g.mutex == Free
    case ShutWait => g.shut == Draining && g.wg == 0
    case ShutFlag => g.shut == Drained
    case ShutClose => g.shut == Flagged
    case ShutUnlock => g.shut == Closed
  }

  function Shut(g: Gate, move: ShutMove): Gate {
    match move
    case ShutLock => g.(mutex := ByShutdown, shut := Draining)
    case ShutWait => g.(shut := Drained)
    case ShutFlag => g.(shut := Flagged, queueClosed := true)
    case ShutClose => g.(shut := Closed, closed := true)
    case ShutUnlock => g.(shut := Over, mutex := Free)
  }

  // ----- What every step keeps -----

  predicate Counts(phase: Phase) {
    phase.Added? || phase.Counted? || phase.Checked? || phase.Sending? || phase.Waiting? || phase.Leaving?
  }

  predicate Inside(phase: Phase) {
    phase.Checked? || phase.Sending? || phase.Waiting?
  }

  function Active(callers: map<nat, Phase>): set<nat> {
    set i | i in callers && Counts(callers[i])
  }

  /** How one caller's phase fits the mutex and the shutdown. */
  predicate Fits(g: Gate, i: nat, phase: Phase) {
    && (phase.Locked? || phase.Added? <==> g.mutex == ByCaller(i))
    && (Inside(phase) ==> g.shut.Open? || g.shut.Draining?)
    && (Counts(phase) ==> !(g.shut.Drained? || g.shut.Flagged? || g.shut.Closed?))
  }

  ghost predicate GateInv(g: Gate) {
    && (forall i :: i in g.callers ==> Fits(g, i, g.callers[i]))
    && (g.mutex.ByCaller? ==> g.mutex.id in g.callers)
    && (g.mutex == ByShutdown <==> g.shut.Draining? || g.shut.Drained? || g.shut.Flagged? || g.shut.Closed?)
    && (g.queueClosed <==> g.shut.Flagged? || g.shut.Closed? || g.shut.Over?)
    && (g.closed <==> g.shut.Closed? || g.shut.Over?)
    && g.wg == |Active(g.callers)|
  }

  lemma ActivePut(callers: map<nat, Phase>, i: nat, phase: Phase)
    ensures Active(callers[i := phase]) == if Counts(phase) then Active(callers) + {i} else Active(callers) - {i}
    ensures |Active(callers[i := phase])| ==
            |Active(callers)| + (if Counts(phase) then 1 else 0) - (if i in Active(callers) then 1 else 0)
  {
    hide Counts;
    var before, after := Active(callers), Active(callers[i := phase]);
    if Counts(phase) {
      assert after == before + {i};
    } else {
      assert after == before - {i};
    }
  }

  lemma MoveKeepsGate(g: Gate, i: nat, move: Move)
    requires GateInv(g) && MayMove(g, i, move)
    ensures GateInv(Moved(g, i, move))
  {
    hide Active;
    ActivePut(g.callers, i, Moved(g, i, move).callers[i]);
    assert i in Active(g.callers) <==> i in g.callers && Counts(g.callers[i]) by {
      ActiveAt(g.callers, i);
    }
    hide Counts, Inside;
    var g' := Moved(g, i, move);
    forall j | j in g'.callers
      ensures Fits(g', j, g'.callers[j])
    {
      MovedFits(g, i, move, j);
    }
  }

  lemma ActiveAt(callers: map<nat, Phase>, i: nat)
    ensures i in Active(callers) <==> i in callers && Counts(callers[i])
  {
  }

  lemma MovedFits(g: Gate, i: nat, move: Move, j: nat)
    requires GateInv(g) && MayMove(g, i, move) && j in Moved(g, i, move).callers
    ensures var g' := Moved(g, i, move); Fits(g', j, g'.callers[j])
  {
    hide Active;
    if j in g.callers {
      assert Fits(g, j, g.callers[j]);
    }
    if i in g.callers {
      assert Fits(g, i, g.callers[i]);
    }
  }

  lemma ShutKeepsGate(g: Gate, move: ShutMove)
    requires GateInv(g) && MayShut(g, move)
    ensures GateInv(Shut(g, move))
  {
    var g' := Shut(g, move);
    if move == ShutWait {
      assert Active(g.callers) == {};
      forall j | j in g.callers
        ensures Fits(g', j, g.callers[j])
      {
        assert Fits(g, j, g.callers[j]);
        ActiveAt(g.callers, j);
      }
    } else {
      hide Active;
      forall j | j in g.callers
        ensures Fits(g', j, g.callers[j])
      {
        assert Fits(g, j, g.callers[j]);
      }
    }
  }

  /** Once the queue is being closed nobody stands between the check and the send. */
  lemma NobodyInside(g: Gate, i: nat)
    requires GateInv(g) && (g.queueClosed || g.closed) && i in g.callers
    ensures !Inside(g.callers[i])
  {
  }

  /** As long as the gate is open, a caller that has not left hands its request over: past the check of the flag
      and of its context it is sending, and then waiting. Once the flag is set it is turned away. */
  lemma OpenGateLetsIn(g: Gate, i: nat)
    requires At(g, i, Counted)
    ensures MayMove(g, i, CheckQueue)
    ensures var checked := Moved(g, i, CheckQueue);
            && (g.queueClosed ==> At(checked, i, Leaving))
            && (!g.queueClosed ==>
                  && MayMove(checked, i, CheckContext(false))
                  && var sending := Moved(checked, i, CheckContext(false));
                  MayMove(sending, i, Hand) && At(Moved(sending, i, Hand), i, Waiting))
            && (!g.queueClosed ==> At(Moved(checked, i, CheckContext(true)), i, Leaving))
  {
  }

  // ----- How far callers have to go -----

  /** The steps a caller still has to take inside; one that has not come in, or has left, has none. */
  function Rank(phase: Phase): nat {
    match phase
    case Arriving => 0
    case Locked => 5
    case Added => 5
    case Counted => 5
    case Checked => 4
    case Sending => 3
    case Waiting => 2
    case Leaving => 1
    case Gone => 0
  }

  function AtLeast(callers: map<nat, Phase>, k: nat): set<nat> {
    set i | i in callers && Rank(callers[i]) >= k
  }

  /** The sum of all callers' ranks. */
  function Ranks(callers: map<nat, Phase>): nat {
    |AtLeast(callers, 1)| + |AtLeast(callers, 2)| + |AtLeast(callers, 3)| + |AtLeast(callers, 4)| +
    |AtLeast(callers, 5)|
  }

  lemma AtLeastPut(callers: map<nat, Phase>, i: nat, phase: Phase, k: nat)
    ensures |AtLeast(callers[i := phase], k)| ==
            |AtLeast(callers, k)| + (if Rank(phase) >= k then 1 else 0)
            - (if i in callers && Rank(callers[i]) >= k then 1 else 0)
  {
    hide Rank;
    var before, after := AtLeast(callers, k), AtLeast(callers[i := phase], k);
    if Rank(phase) >= k {
      assert after == before + {i};
    } else {
      assert after == before - {i};
    }
  }

  lemma RanksPut(callers: map<nat, Phase>, i: nat, phase: Phase)
    ensures Ranks(callers[i := phase]) == Ranks(callers) + Rank(phase) - (if i in callers then Rank(callers[i]) else 0)
  {
    hide AtLeast;
    AtLeastPut(callers, i, phase, 1);
    AtLeastPut(callers, i, phase, 2);
    AtLeastPut(callers, i, phase, 3);
    AtLeastPut(callers, i, phase, 4);
    AtLeastPut(callers, i, phase, 5);
  }

  /** Shutdown has taken the mutex and not yet given it back. */
  predicate ShuttingDown(shut: Shutting) {
    shut.Draining? || shut.Drained? || shut.Flagged? || shut.Closed?
  }

  /** While it holds the mutex no caller comes in, and those inside only get closer to leaving. */
  lemma CallersLeave(g: Gate, i: nat, move: Move)
    requires GateInv(g) && ShuttingDown(g.shut) && MayMove(g, i, move)
    ensures Moved(g, i, move).shut == g.shut
    ensures Ranks(Moved(g, i, move).callers) <= Ranks(g.callers) - if move.Begin? then 0 else 1
  {
    hide Ranks, Active;
    if i in g.callers {
      assert Fits(g, i, g.callers[i]);
    }
    RanksPut(g.callers, i, Moved(g, i, move).callers[i]);
  }

  /** Somebody inside, if the shutdown waits for anybody. */
  lemma SomebodyInside(g: Gate) returns (i: nat)
    requires GateInv(g) && g.shut.Draining? && g.wg != 0
    ensures i in g.callers && Counts(g.callers[i]) && !g.callers[i].Added?
  {
    var active := Active(g.callers);
    assert active != {};
    i :| i in active;
    assert Fits(g, i, g.callers[i]);
  }
}
