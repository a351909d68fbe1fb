/** scripts/dev-watch.mjs as an object whose handlers update `currentChild`, `shuttingDown`,
    `lastFingerprint` and the children in place, proved to take exactly the steps of DevWatch. */
module Supervisor {
  import opened Prelude
  import opened DevWatch

  class DevWatchProcess {
    var children: seq<Child>
    var currentChild: Option<nat>
    var shuttingDown: bool
    var lastFingerprint: Fingerprint
    var main: MainPc
    var cleanup: CleanupPc
    var exit: Option<Ending>
    ghost var log: seq<Spawn>

    ghost function View(): State
      reads this
    {
      State(children, currentChild, shuttingDown, lastFingerprint, main, cleanup, exit, log)
    }

    constructor ()
      ensures View() == Init
    {
      children, currentChild, shuttingDown, lastFingerprint := [], None, false, "";
      main, cleanup, exit, log := Probing(First), NotStarted, None, [];
    }

    method SignalChildGroup(child: nat, kill: bool)
      requires child < |children|
      modifies this`children
      ensures children == if kill then SendKill(old(children), child) else SendTerm(old(children), child)
    {
      var c := children[child];
      children := children[child := if kill then c.(killed := true) else c.(termed := true)];
    }

    /** `spawn(...)` and the assignment to currentChild. */
    method SpawnChild(why: Why)
      modifies this
      ensures View() == SpawnKikx(old(View()), why)
    {
      currentChild := Some(|children|);
      children := children + [Child(false, false, false)];
      main := WaitHealth(why);
      log := log + [Spawn(why, lastFingerprint)];
    }

    method Start(why: Why)
      requires WellFormed(View())
      modifies this
      ensures View() == StartKikx(old(View()), why)
    {
      if currentChild.None? {
        main := Probing(why);
      } else if children[currentChild.value].exited {
        SpawnChild(why);
      } else {
        SignalChildGroup(currentChild.value, false);
        main := StopTerm(why, currentChild.value);
      }
    }

    /** The end of the process: the 'exit' handler forces the current child down. */
    method Exit(code: nat)
      requires WellFormed(View())
      modifies this
      ensures View() == ExitWith(old(View()), code)
    {
      if currentChild.Some? && !children[currentChild.value].exited {
        SignalChildGroup(currentChild.value, false);
        SignalChildGroup(currentChild.value, true);
      }
      exit := Some(Exited(code));
    }

    /** A wait inside stopChild, called by startKikx, ended. */
    method OnStopWait(sawExit: bool)
      requires WellFormed(View()) && Enabled(View(), if sawExit then StopSeesExit else StopTimesOut)
      modifies this
      ensures View() == Apply(old(View()), if sawExit then StopSeesExit else StopTimesOut)
    {
      if !sawExit && main.StopTerm? {
        SignalChildGroup(main.child, true);
        main := StopKill(main.why, main.child);
      } else {
        SpawnChild(main.why);
      }
    }

    /** A fingerprint of the watched tree was computed. */
    method OnSampled(fp: Fingerprint)
      requires WellFormed(View()) && Enabled(View(), Sampled(fp))
      modifies this
      ensures View() == Apply(old(View()), Sampled(fp))
    {
      if main.SampleAfter? {
        lastFingerprint := fp;
        main := if shuttingDown then Returned else Sleeping;
      } else if fp == lastFingerprint {
        main := if shuttingDown then Returned else Sleeping;
      } else if main.Sampling? {
        main := Debouncing(fp);
      } else {
        var why := Change(lastFingerprint, main.first, fp);
        lastFingerprint := fp;
        Start(why);
      }
    }

    /** `cleanup(signal)` up to its first suspension. */
    method Cleanup()
      requires WellFormed(View()) && Enabled(View(), Signal)
      modifies this
      ensures View() == Apply(old(View()), Signal)
    {
      if shuttingDown {
        return;
      }
      shuttingDown := true;
      if currentChild.None? || children[currentChild.value].exited {
        Exit(0);
      } else {
        SignalChildGroup(currentChild.value, false);
        cleanup := CleanTerm(currentChild.value);
      }
    }

    /** A wait inside stopChild, called by cleanup, ended. */
    method OnCleanupWait(sawExit: bool)
      requires WellFormed(View()) && Enabled(View(), if sawExit then CleanupSeesExit else CleanupTimesOut)
      modifies this
      ensures View() == Apply(old(View()), if sawExit then CleanupSeesExit else CleanupTimesOut)
    {
      if !sawExit && cleanup.CleanTerm? {
        SignalChildGroup(cleanup.child, true);
        cleanup := CleanKill(cleanup.child);
      } else {
        Exit(0);
      }
    }

    method Dispatch(e: Event)
      requires WellFormed(View()) && Enabled(View(), e)
      modifies this
      ensures View() == Apply(old(View()), e)
    {
      match e
      case ProbeAnswers(healthy) =>
        if healthy {
          Exit(1);
        } else {
          SpawnChild(main.why);
        }
      case ChildExits(i) => children := children[i := children[i].(exited := true)];
      case StopSeesExit => OnStopWait(true);
      case StopTimesOut => OnStopWait(false);
      case HealthReady =>
        if main.why.Change? {
          main := if shuttingDown then Returned else Sleeping;
        } else {
          main := SampleAfter(main.why);
        }
      case HealthFails => Exit(1);
      case Sampled(fp) => OnSampled(fp);
      case SampleThrows => Exit(1);
      case PollWakes =>
        if currentChild.Some? && children[currentChild.value].exited && !shuttingDown {
          Start(Crash);
        } else {
          main := Sampling;
        }
      case DebounceWakes => main := Resampling(main.first);
      case Signal => Cleanup();
      case OtherSignal => exit := Some(Killed);
      case CleanupSeesExit => OnCleanupWait(true);
      case CleanupTimesOut => OnCleanupWait(false);
    }

    /** Replaced children, and at an exit all of them, are gone or sure to go. */
    ghost predicate Attends()
      reads this
    {
      && (forall i :: 0 <= i < |children| - 1 ==> Settled(children[i]))
      && (forall i :: 0 <= i < |children| && children[i].killed ==> children[i].termed)
      && (exit.Some? && exit.value.Exited? ==> forall i :: 0 <= i < |children| ==> Settled(children[i]))
    }

    /** Every restart for a change was decided by two samples unlike the fingerprint recorded then, and
        the second was recorded before the child was spawned. */
    ghost predicate Debounces()
      reads this
    {
      forall spawn :: spawn in log && spawn.why.Change? ==>
        && spawn.why.first != spawn.why.before
        && spawn.why.second != spawn.why.before
        && spawn.recorded == spawn.why.second
    }

    /** Any run of the supervisor: every theorem about Exec is one about this object. */
    method Replay(es: seq<Event>)
      requires Run(View(), es)
      modifies this
      ensures View() == Exec(old(View()), es)
    {
      ghost var s0 := View();
      for k := 0 to |es|
        invariant Run(View(), es[k..])
        invariant Exec(View(), es[k..]) == Exec(s0, es)
      {
        assert es[k..][0] == es[k] && es[k..][1..] == es[k + 1..];
        Dispatch(es[k]);
      }
    }
  }

  /** A whole run of the script, whatever happens to it: the object it leaves behind has kept its
      guarantees on every child and every restart. */
  method Supervise(es: seq<Event>) returns (p: DevWatchProcess)
    requires Run(Init, es)
    ensures fresh(p) && p.View() == Exec(Init, es)
    ensures p.Attends() && p.Debounces()
    ensures p.exit == Some(Exited(1)) <==>
              ProbeAnswers(true) in es || HealthFails in es || SampleThrows in es
    ensures p.exit == Some(Killed) <==> OtherSignal in es
    ensures p.shuttingDown <==> Signal in es
    ensures p.log != [] <==> ProbeAnswers(false) in es
    ensures ProbeAnswers(true) in es ==> p.children == [] && p.log == [] && p.exit == Some(Exited(1))
    ensures p.shuttingDown && p.exit.None? ==> exists i :: 0 <= i < |p.children| && p.children[i].termed
    ensures p.exit.None? ==> forall i :: 0 <= i < |p.children| ==>
              && (p.children[i].termed <==> EverStops(Init, es, i))
              && (p.children[i].killed <==> EverRunsOut(Init, es, i))
    ensures CrashSpawns(p.log) == TimesGone(Init, es) && |p.log| == |p.children|
  {
    p := new DevWatchProcess();
    p.Replay(es);
    NoChildAbandoned(es);
    RestartsAreDebounced(es);
    EndsIff(es);
    CrashesAreRestarted(es);
    forall i | 0 <= i < |p.children| && p.exit.None?
      ensures p.children[i].termed <==> EverStops(Init, es, i)
      ensures p.children[i].killed <==> EverRunsOut(Init, es, i)
    {
      SignalledIff(es, i);
    }
  }
}
