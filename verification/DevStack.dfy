/** scripts/start-dev.mjs as an object: its handlers update `children`, `shuttingDown` and
    `parentMonitor` in place, and are proved to take exactly the steps of StartDev. */
module DevStack {
  import opened Prelude
  import opened StartDev

  class DevStackProcess {
    var kids: seq<Kid>
    var children: seq<nat>
    var shuttingDown: bool
    var active: seq<nat>
    var phase: Phase
    var parentMonitor: PM.ParentExitMonitor?
    var exit: Option<Exit>
    ghost var shutdowns: nat

    ghost function View(): State
      reads this, parentMonitor
    {
      State(kids, children, shuttingDown, active, phase,
            if parentMonitor == null then None else Some(parentMonitor.View()), exit, shutdowns)
    }

    constructor ()
      ensures View() == Init && parentMonitor == null
    {
      kids, children, shuttingDown, active := [], [], false, [];
      phase, parentMonitor, exit, shutdowns := ProbingAeor, null, None, 0;
    }

    method Start()
      modifies this`kids, this`children
      ensures View() == StartChild(old(View()))
    {
      children := children + [|kids|];
      kids := kids + [Kid(false, 0)];
    }

    /** `children = children.filter(...)` */
    method Remove(i: nat)
      modifies this`children
      ensures children == Without(old(children), i)
    {
      var kept: seq<nat> := [];
      for k := 0 to |children|
        invariant children == old(children)
        invariant kept == Without(children[..k], i)
      {
        assert children[..k + 1][..k] == children[..k];
        if children[k] != i {
          kept := kept + [children[k]];
        }
      }
      assert children[..|children|] == children;
      children := kept;
    }

    /** All waits of shutdown are over: leave. */
    method LeaveIfAlone()
      modifies this`exit
      ensures View() == AwaitActive(old(View()))
    {
      if shuttingDown && forall i :: i in active && i < |kids| ==> kids[i].exited {
        exit := Some(ByShutdown);
      }
    }

    method SignalActive()
      modifies this`kids
      ensures kids == SignalAll(old(kids), active)
    {
      for k := 0 to |active|
        invariant kids == SignalAll(old(kids), active[..k])
      {
        assert active[..k + 1][..k] == active[..k];
        if active[k] < |kids| {
          kids := kids[active[k] := kids[active[k]].(signals := kids[active[k]].signals + 1)];
        }
      }
      assert active[..|active|] == active;
    }

    method ShutdownAll()
      modifies this, parentMonitor
      ensures View() == Shutdown(old(View()))
      ensures parentMonitor == old(parentMonitor)
    {
      if shuttingDown {
        return;
      }
      shuttingDown, shutdowns := true, shutdowns + 1;
      if parentMonitor != null {
        parentMonitor.StopTimer();
      }
      active := children;
      SignalActive();
      LeaveIfAlone();
    }

    /** The end of the startup script. */
    method HoldOrLeave()
      modifies this
      ensures View() == Finish(old(View()))
      ensures parentMonitor == old(parentMonitor) || fresh(parentMonitor)
    {
      if |children| == 0 {
        exit := Some(NothingStarted);
      } else {
        phase := Ready;
        parentMonitor := new PM.ParentExitMonitor();
      }
    }

    /** The 'exit' listener of a child. */
    method OnChildExit(i: nat, clean: bool)
      requires Enabled(View(), ChildExits(i, clean))
      modifies this, parentMonitor
      ensures View() == Apply(old(View()), ChildExits(i, clean))
      ensures parentMonitor == old(parentMonitor)
    {
      kids := kids[i := kids[i].(exited := true)];
      Remove(i);
      if !shuttingDown && !clean {
        ShutdownAll();
      }
      LeaveIfAlone();
    }

    /** One tick of the parent monitor, whose callback shuts the stack down. */
    method OnParentTick(same: bool, alive: bool)
      requires Enabled(View(), ParentTick(same, alive))
      modifies this, parentMonitor
      ensures View() == Apply(old(View()), ParentTick(same, alive))
      ensures parentMonitor == old(parentMonitor)
    {
      var fire := parentMonitor.OnTick(same, alive);
      if fire {
        ShutdownAll();
      }
    }

    method Dispatch(e: Event)
      requires Enabled(View(), e)
      modifies this, parentMonitor
      ensures View() == Apply(old(View()), e)
      ensures parentMonitor == old(parentMonitor) || fresh(parentMonitor)
    {
      match e
      case DriverIsOther => phase := ProbingKikx;
      case AeorProbed(listening) =>
        if !listening {
          Start();
        }
        phase := AwaitingAeor;
      case AeorReady => phase := ProbingKikx;
      case KikxProbed(listening) =>
        if listening {
          HoldOrLeave();
        } else {
          Start();
          phase := AwaitingKikx;
        }
      case KikxListening => HoldOrLeave();
      case StartupThrows => exit := Some(StartupError);
      case ChildExits(i, clean) => OnChildExit(i, clean);
      case Signal =>
        if phase.Ready? {
          ShutdownAll();
        } else {
          exit := Some(DefaultSignal);
        }
      case OtherSignal => exit := Some(DefaultSignal);
      case ParentTick(same, alive) => OnParentTick(same, alive);
    }

    /** Shutdown ran at most once, signalled each child of its snapshot once and no other, and ends only
        when every child that was started is gone. */
    ghost predicate Orderly()
      reads this
    {
      && shutdowns == (if shuttingDown then 1 else 0)
      && (forall i :: 0 <= i < |kids| ==> kids[i].signals == if shuttingDown && i in active then 1 else 0)
      && (shuttingDown && exit.None? ==> exists i: nat :: i in active && i < |kids| && !kids[i].exited)
      && (exit == Some(ByShutdown) || exit == Some(NothingStarted) ==> forall i :: 0 <= i < |kids| ==> kids[i].exited)
    }

    /** Any run of the script: every theorem about Exec is one about this object. */
    method Replay(es: seq<Event>)
      requires Run(View(), es)
      modifies this, parentMonitor
      ensures View() == Exec(old(View()), es)
    {
      ghost var s0 := View();
      for k := 0 to |es|
        invariant parentMonitor == old(parentMonitor) || fresh(parentMonitor)
        invariant Run(View(), es[k..])
        invariant Exec(View(), es[k..]) == Exec(s0, es)
      {
        assert es[k..][0] == es[k] && es[k..][1..] == es[k + 1..];
        Dispatch(es[k]);
      }
    }
  }

  /** A whole run of the script, whatever happens to it: the object it leaves behind has shut down in
      order, if it has shut down at all. */
  method RunStack(es: seq<Event>) returns (p: DevStackProcess)
    requires Run(Init, es)
    ensures fresh(p) && p.View() == Exec(Init, es)
    ensures p.Orderly()
    ensures p.shuttingDown <==> Sometime(Init, es, Triggers)
    ensures p.shuttingDown ==> forall i :: 0 <= i < |p.kids| && !p.kids[i].exited ==> p.kids[i].signals == 1
    ensures p.exit == Some(StartupError) <==> Sometime(Init, es, Throws)
    ensures p.exit == Some(DefaultSignal) <==> Sometime(Init, es, Unhandled)
    ensures p.exit == Some(NothingStarted) <==> Sometime(Init, es, FinishesAlone)
    ensures p.phase.Ready? <==> Sometime(Init, es, Holds)
    ensures |p.kids| == Starts(es)
  {
    p := new DevStackProcess();
    p.Replay(es);
    EventsDecide(es);
    OrderlyView(p, es);
    forall i | p.shuttingDown && 0 <= i < |p.kids| && !p.kids[i].exited
      ensures p.kids[i].signals == 1
    {
      assert Running(Exec(Init, es), i);
    }
  }

  /** What holds of the state holds of the fields. */
  lemma OrderlyView(p: DevStackProcess, es: seq<Event>)
    requires Run(Init, es) && p.View() == Exec(Init, es)
    ensures p.Orderly()
  {
    var s := Exec(Init, es);
    ShutdownIsOrderly(es);
    if s.shuttingDown && s.exit.None? {
      var i: nat :| i in s.active && Running(s, i);
      assert i in p.active && i < |p.kids| && !p.kids[i].exited;
    }
    forall i | 0 <= i < |p.kids|
      ensures p.exit == Some(ByShutdown) || p.exit == Some(NothingStarted) ==> p.kids[i].exited
    {
      assert p.kids == s.kids && p.exit == s.exit;
      assert !p.kids[i].exited ==> Running(s, i);
    }
  }
}
