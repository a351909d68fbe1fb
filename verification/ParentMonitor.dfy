/** scripts/parent-exit-monitor.mjs: a timer that reports once that the parent process is gone. */
module ParentMonitor {

  datatype Monitor = Monitor(stopped: bool, fired: nat)

  /** A tick with what it sees: whether getParentPID() still is the parent, and whether it is alive. */
  datatype Event = Tick(sameParent: bool, alive: bool) | Stop

  const Fresh: Monitor := Monitor(false, 0)

  function Step(m: Monitor, e: Event): Monitor {
    if m.stopped then m
    else match e
      case Tick(same, alive) => if same && alive then m else Monitor(true, m.fired + 1)
      case Stop => m.(stopped := true)
  }

  function Exec(m: Monitor, es: seq<Event>): Monitor {
    if es == [] then m else Step(Exec(m, es[..|es| - 1]), es[|es| - 1])
  }

  /** es[k] is the first event that is either a stop or a tick that finds another parent or none. */
  predicate Decides(es: seq<Event>, k: nat) {
    && k < |es| && es[k] != Tick(true, true)
    && forall i :: 0 <= i < k ==> es[i] == Tick(true, true)
  }

  /** Under any order of ticks and stops the callback runs at most once and never after a stop: it
      runs exactly when the first event that matters is a tick that finds the parent gone. */
  lemma {:induction false} FiresOnceIff(es: seq<Event>)
    ensures var m := Exec(Fresh, es);
            && m.fired <= 1
            && (m.fired == 1 <==> exists k: nat :: Decides(es, k) && es[k].Tick?)
            && (m.stopped <==> exists k: nat :: Decides(es, k))
  {
    if es == [] {
    } else {
      var front, last := es[..|es| - 1], es[|es| - 1];
      FiresOnceIff(front);
      assert forall i :: 0 <= i < |front| ==> es[i] == front[i];
      forall k: nat
        ensures Decides(front, k) ==> Decides(es, k)
        ensures Decides(es, k) && k < |front| ==> Decides(front, k)
      {
      }
      if !Exec(Fresh, front).stopped {
        FirstDecision(front);
        assert last != Tick(true, true) ==> Decides(es, |front|);
      } else {
        var k: nat :| Decides(front, k);
        assert forall j: nat :: Decides(es, j) ==> j == k;
      }
    }
  }

  lemma {:induction false} FirstDecision(es: seq<Event>)
    requires forall k: nat :: !Decides(es, k)
    ensures forall i :: 0 <= i < |es| ==> es[i] == Tick(true, true)
  {
    if es == [] {
    } else {
      var front := es[..|es| - 1];
      forall k: nat
        ensures !Decides(front, k)
      {
        assert !Decides(es, k);
      }
      FirstDecision(front);
      assert !Decides(es, |front|);
      assert forall i :: 0 <= i < |front| ==> es[i] == front[i];
    }
  }

  /** The object createParentExitMonitor returns, with its captured flag. */
  class ParentExitMonitor {
    var stopped: bool
    ghost var fired: nat

    ghost function View(): Monitor
      reads this
    {
      Monitor(stopped, fired)
    }

    constructor ()
      ensures View() == Fresh
    {
      stopped, fired := false, 0;
    }

    /** One run of the interval callback; the result says whether onParentExit is called. */
    method OnTick(sameParent: bool, alive: bool) returns (fire: bool)
      modifies this
      ensures View() == Step(old(View()), Tick(sameParent, alive))
      ensures fire <==> fired == old(fired) + 1
    {
      if stopped || (sameParent && alive) {
        return false;
      }
      stopped, fired := true, fired + 1;
      return true;
    }

    method StopTimer()
      modifies this
      ensures View() == Step(old(View()), Stop)
    {
      if stopped {
        return;
      }
      stopped := true;
    }
  }
}
