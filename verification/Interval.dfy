/**
 The one-shot ticker that the batching loops wait on.
 */
module Interval {

  datatype Phase = Idle | Sleeping | Delivering

  /** Both channels hold one token: asked for a tick, and a tick not yet read. */
  datatype Timer = Timer(asked: bool, phase: Phase, ticked: bool)

  /** The next thing the ticker's goroutine does; it blocks while its last tick is unread. */
  function Advanced(t: Timer): Timer {
    match t.phase
    case Idle => if t.asked then t.(asked := false, phase := Sleeping) else t
    case Sleeping => t.(phase := Delivering)
    case Delivering => if t.ticked then t else t.(phase := Idle, ticked := true)
  }

  predicate TickComing(t: Timer) {
    t.asked || t.phase != Idle || t.ticked
  }

  function AdvancedBy(t: Timer, n: nat): Timer
    decreases n
  {
    if n == 0 then t else AdvancedBy(Advanced(t), n - 1)
  }

  lemma {:induction false} QuietStays(t: Timer, n: nat)
    requires !TickComing(t)
    ensures AdvancedBy(t, n) == t
    decreases n
  {
    if n == 0 {
    } else {
      QuietStays(t, n - 1);
    }
  }

  lemma {:induction false} TickedStays(t: Timer, n: nat)
    requires t.ticked
    ensures AdvancedBy(t, n).ticked
    decreases n
  {
    if n == 0 {
    } else {
      TickedStays(Advanced(t), n - 1);
    }
  }

  /** The ticker delivers, and within three steps, exactly when a tick is coming. */
  lemma TicksIff(t: Timer, n: nat)
    requires 3 <= n
    ensures AdvancedBy(t, n).ticked <==> TickComing(t)
  {
    if TickComing(t) {
      var one := Advanced(t);
      var two := Advanced(one);
      assert AdvancedBy(t, n) == AdvancedBy(one, n - 1);
      assert AdvancedBy(one, n - 1) == AdvancedBy(two, n - 2);
      assert AdvancedBy(two, n - 2) == AdvancedBy(Advanced(two), n - 3);
      TickedStays(Advanced(two), n - 3);
    } else {
      QuietStays(t, n);
    }
  }

  /** The ticks under way: asked for, being slept for, and not yet read. */
  function UnderWay(t: Timer): nat {
    (if t.asked then 1 else 0) + (if t.phase == Idle then 0 else 1) + if t.ticked then 1 else 0
  }

  /** The ticker neither loses a tick nor makes one up: a tick that is due while the last is unread waits for it
      to be read. */
  lemma TicksAreConserved(t: Timer)
    ensures UnderWay(Advanced(t)) == UnderWay(t)
    ensures t.ticked && t.phase == Delivering ==> Advanced(Advanced(t).(ticked := false)).ticked
  {
  }

  /** However a loop's calls and the ticker's steps interleave, a tick once asked for stays on its
      way until it is read. */
  lemma ComingStays(t: Timer)
    requires TickComing(t)
    ensures TickComing(Advanced(t)) && TickComing(t.(asked := true))
  {
  }

  class Interval {
    var asked: bool
    var phase: Phase
    var ticked: bool

    function View(): Timer
      reads this
    {
      Timer(asked, phase, ticked)
    }

    constructor ()
      ensures View() == Timer(false, Idle, false)
    {
      asked, phase, ticked := false, Idle, false;
    }

    /** Asks for a tick, unless one is asked for already. */
    method Next()
      modifies this
      ensures View() == old(View()).(asked := true)
    {
      if !asked {
        asked := true;
      }
    }

    method Run()
      modifies this
      ensures View() == Advanced(old(View()))
    {
      if phase == Idle {
        if asked {
          asked, phase := false, Sleeping;
        }
      } else if phase == Sleeping {
        phase := Delivering;
      } else if !ticked {
        ticked, phase := true, Idle;
      }
    }

    /** Reads the tick. */
    method Receive()
      requires ticked
      modifies this
      ensures View() == old(View()).(ticked := false)
    {
      ticked := false;
    }
  }
}
