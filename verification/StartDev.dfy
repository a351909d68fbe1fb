/** scripts/start-dev.mjs as a step system: start AeorDB when it is needed, start Kikx, then hold both
    until a signal, the loss of the parent or an unexpected exit shuts the stack down. */
module StartDev {
  import opened Prelude
  import PM = ParentMonitor

  /** A started child: whether it has exited, and how often its group was signalled by shutdown. */
  datatype Kid = Kid(exited: bool, signals: nat)

  /** Where the top-level script is suspended. */
  datatype Phase = ProbingAeor | AwaitingAeor | ProbingKikx | AwaitingKikx | Ready

  /** DefaultSignal: a signal without a handler ended the process. */
  datatype Exit = ByShutdown | NothingStarted | StartupError | DefaultSignal

  /** `children` is the array of the source, by index of the child; `active` is shutdown's snapshot of
      it. `shutdowns` counts runs of the shutdown body: a history variable. */
  datatype State = State(
    kids: seq<Kid>,
    children: seq<nat>,
    shuttingDown: bool,
    active: seq<nat>,
    phase: Phase,
    monitor: Option<PM.Monitor>,
    exit: Option<Exit>,
    shutdowns: nat)

  datatype Event =
    | DriverIsOther                       // not AeorDB: skip its startup
    | AeorProbed(listening: bool)
    | AeorReady
    | KikxProbed(listening: bool)
    | KikxListening
    | StartupThrows                       // a deadline passed, or AeorDB reported failure
    | ChildExits(kid: nat, clean: bool)
    | Signal
    | OtherSignal                         // neither SIGINT nor SIGTERM
    | ParentTick(sameParent: bool, alive: bool)

  const Init: State := State([], [], false, [], ProbingAeor, None, None, 0)

  predicate Enabled(s: State, e: Event) {
    s.exit.None? &&
    match e
    case DriverIsOther => s.phase.ProbingAeor?
    case AeorProbed(_) => s.phase.ProbingAeor?
    case AeorReady => s.phase.AwaitingAeor?
    case KikxProbed(_) => s.phase.ProbingKikx?
    case KikxListening => s.phase.AwaitingKikx?
    case StartupThrows => s.phase.AwaitingAeor? || s.phase.AwaitingKikx?
    case ChildExits(i, _) => i < |s.kids| && !s.kids[i].exited
    case Signal => true
    case OtherSignal => true
    case ParentTick(_, _) => s.monitor.Some?
  }

  function StartChild(s: State): State {
    s.(kids := s.kids + [Kid(false, 0)], children := s.children + [|s.kids|])
  }

  /** The end of the script: leave when there is nothing to hold, else install the handlers. */
  function Finish(s: State): State {
    if s.children == [] then s.(exit := Some(NothingStarted))
    else s.(phase := Ready, monitor := Some(PM.Fresh))
  }

  /** `children.filter((entry) => entry.child !== child)` */
  function Without(children: seq<nat>, i: nat): seq<nat> {
    if children == [] then []
    else
      var rest := Without(children[..|children| - 1], i);
      if children[|children| - 1] == i then rest else rest + [children[|children| - 1]]
  }

  function SignalGroup(kids: seq<Kid>, i: nat): seq<Kid> {
    if i < |kids| then kids[i := kids[i].(signals := kids[i].signals + 1)] else kids
  }

  /** `for (let { child } of active) signalChildGroup(child, signal)` */
  function SignalAll(kids: seq<Kid>, active: seq<nat>): seq<Kid> {
    if active == [] then kids else SignalGroup(SignalAll(kids, active[..|active| - 1]), active[|active| - 1])
  }

  lemma {:induction false} SignalAllAt(kids: seq<Kid>, active: seq<nat>)
    requires Distinct(active)
    ensures |SignalAll(kids, active)| == |kids|
    ensures forall i :: 0 <= i < |kids| ==>
              SignalAll(kids, active)[i] == if i in active then kids[i].(signals := kids[i].signals + 1) else kids[i]
  {
    if active == [] {
    } else {
      var front, last := active[..|active| - 1], active[|active| - 1];
      SignalAllAt(kids, front);
      assert active == front + [last];
    }
  }

  /** `await Promise.all(active.map(waitForExit))` is over, and the process exits. */
  function AwaitActive(s: State): State {
    if s.shuttingDown && forall i :: i in s.active && i < |s.kids| ==> s.kids[i].exited
    then s.(exit := Some(ByShutdown))
    else s
  }

  function Shutdown(s: State): State {
    if s.shuttingDown then s
    else
      AwaitActive(s.(
        shuttingDown := true,
        shutdowns := s.shutdowns + 1,
        monitor := if s.monitor.Some? then Some(PM.Step(s.monitor.value, PM.Stop)) else None,
        active := s.children,
        kids := SignalAll(s.kids, s.children)))
  }

  function Apply(s: State, e: Event): State
    requires Enabled(s, e)
  {
    match e
    case DriverIsOther => s.(phase := ProbingKikx)
    case AeorProbed(listening) => (if listening then s else StartChild(s)).(phase := AwaitingAeor)
    case AeorReady => s.(phase := ProbingKikx)
    case KikxProbed(listening) => if listening then Finish(s) else StartChild(s).(phase := AwaitingKikx)
    case KikxListening => Finish(s)
    case StartupThrows => s.(exit := Some(StartupError))
    case ChildExits(i, clean) =>
      var s' := s.(kids := s.kids[i := s.kids[i].(exited := true)], children := Without(s.children, i));
      AwaitActive(if s.shuttingDown || clean then s' else Shutdown(s'))
    case Signal => if s.phase.Ready? then Shutdown(s) else s.(exit := Some(DefaultSignal))
    case OtherSignal => s.(exit := Some(DefaultSignal))
    case ParentTick(same, alive) =>
      var m := PM.Step(s.monitor.value, PM.Tick(same, alive));
      var s' := s.(monitor := Some(m));
      if m.fired > s.monitor.value.fired then Shutdown(s') else s'
  }

  predicate Run(s: State, es: seq<Event>)
    decreases |es|
  {
    es != [] ==> Enabled(s, es[0]) && Run(Apply(s, es[0]), es[1..])
  }

  function Exec(s: State, es: seq<Event>): State
    requires Run(s, es)
    decreases |es|
  {
    if es == [] then s else Exec(Apply(s, es[0]), es[1..])
  }

  // ----- the shutdown protocol

  /** Before Kikx is started there is at most one child, so a shutdown in that phase has nobody to
      wait for: no child is ever started behind the back of a running shutdown. */
  predicate Early(p: Phase) {
    p.ProbingAeor? || p.AwaitingAeor? || p.ProbingKikx?
  }

  ghost predicate Running(s: State, i: nat) {
    i < |s.kids| && !s.kids[i].exited
  }

  ghost predicate Protocol(s: State) {
    && (forall i: nat :: i in s.children <==> Running(s, i))
    && Distinct(s.children)
    && s.shutdowns == (if s.shuttingDown then 1 else 0)
    && (forall i :: 0 <= i < |s.kids| ==> s.kids[i].signals == if s.shuttingDown && i in s.active then 1 else 0)
    && (s.shuttingDown ==> forall i: nat :: Running(s, i) ==> i in s.active)
    && (s.shuttingDown && s.exit.None? ==> exists i: nat :: i in s.active && Running(s, i))
    && (s.exit == Some(ByShutdown) ==> s.shuttingDown && forall i: nat :: !Running(s, i))
    && (s.exit == Some(NothingStarted) ==> forall i: nat :: !Running(s, i))
    && (Early(s.phase) ==> |s.kids| <= 1 && (s.shuttingDown ==> s.exit.Some?))
    && (s.phase.ProbingAeor? ==> |s.kids| == 0)
    && (s.monitor.Some? <==> s.phase.Ready?)
    && (s.monitor.Some? ==>
          && s.monitor.value.fired <= 1
          && (s.monitor.value.fired == 1 ==> s.monitor.value.stopped && s.shuttingDown)
          && (s.monitor.value.stopped ==> s.shuttingDown))
  }

  lemma {:induction false} WithoutMembers(children: seq<nat>, i: nat)
    ensures forall k :: k in Without(children, i) <==> k in children && k != i
    ensures Distinct(children) ==> Distinct(Without(children, i))
  {
    if children == [] {
    } else {
      var front, last := children[..|children| - 1], children[|children| - 1];
      WithoutMembers(front, i);
      assert children == front + [last];
      DistinctSnoc(front, last);
      DistinctSnoc(Without(front, i), last);
    }
  }

  /** The body of shutdown, run from a state whose waits have not been looked at yet. */
  lemma ShutdownProtocol(s: State)
    requires !s.shuttingDown && s.exit.None? && s.shutdowns == 0
    requires forall i: nat :: i in s.children <==> Running(s, i)
    requires Distinct(s.children)
    requires forall i :: 0 <= i < |s.kids| ==> s.kids[i].signals == 0
    requires Early(s.phase) ==> s.children == []
    requires Early(s.phase) ==> |s.kids| <= 1
    requires s.phase.ProbingAeor? ==> |s.kids| == 0
    requires s.monitor.Some? <==> s.phase.Ready?
    requires s.monitor.Some? ==> s.monitor.value.fired <= 1
    ensures Protocol(Shutdown(s)) && Shutdown(s).shuttingDown
  {
    var s' := Shutdown(s);
    SignalAllAt(s.kids, s.children);
    assert forall i: nat :: Running(s', i) <==> Running(s, i);
  }

  lemma StepExit(s: State, i: nat, clean: bool)
    requires Protocol(s) && Enabled(s, ChildExits(i, clean))
    ensures Protocol(Apply(s, ChildExits(i, clean)))
  {
    WithoutMembers(s.children, i);
    var s' := s.(kids := s.kids[i := s.kids[i].(exited := true)], children := Without(s.children, i));
    assert forall k: nat :: Running(s', k) <==> Running(s, k) && k != i;
    if !s.shuttingDown && !clean {
      NonemptyHasMember(s'.children);
      ShutdownProtocol(s');
    }
  }

  lemma StepStart(s: State, phase: Phase)
    requires Protocol(s) && s.exit.None? && !s.shuttingDown
    requires phase.AwaitingKikx? || (phase.AwaitingAeor? && |s.kids| == 0)
    requires !s.phase.Ready?
    ensures Protocol(StartChild(s).(phase := phase))
  {
    var s' := StartChild(s).(phase := phase);
    DistinctSnoc(s.children, |s.kids|);
    assert forall i: nat :: Running(s', i) <==> Running(s, i) || i == |s.kids|;
    assert forall i: nat :: i in s'.children <==> i in s.children || i == |s.kids|;
  }

  lemma StepFinish(s: State)
    requires Protocol(s) && s.exit.None? && !s.phase.Ready?
    ensures Protocol(Finish(s))
  {
    var s' := Finish(s);
    assert forall i: nat :: Running(s', i) <==> Running(s, i);
    if s.shuttingDown {
      var i: nat :| i in s.active && Running(s, i);
      assert Running(s', i);
    }
  }

  lemma StepQuiet(s: State, s': State)
    requires Protocol(s)
    requires s'.kids == s.kids && s'.children == s.children && s'.active == s.active
    requires s'.shuttingDown == s.shuttingDown && s'.shutdowns == s.shutdowns
    requires s'.exit == s.exit || (s.exit.None? && (s'.exit == Some(StartupError) || s'.exit == Some(DefaultSignal)))
    requires s'.phase == s.phase || (s.exit.None? && s'.phase.ProbingKikx? && Early(s.phase))
    requires s'.monitor == s.monitor
    ensures Protocol(s')
  {
    assert forall i: nat :: Running(s', i) <==> Running(s, i);
    if s'.shuttingDown && s'.exit.None? {
      var i: nat :| i in s.active && Running(s, i);
      assert Running(s', i);
    }
  }

  lemma StepTick(s: State, same: bool, alive: bool)
    requires Protocol(s) && Enabled(s, ParentTick(same, alive))
    ensures Protocol(Apply(s, ParentTick(same, alive)))
  {
    var m := PM.Step(s.monitor.value, PM.Tick(same, alive));
    var s' := s.(monitor := Some(m));
    assert forall i: nat :: Running(s', i) <==> Running(s, i);
    if m.fired > s.monitor.value.fired {
      if s.shuttingDown {
        var i: nat :| i in s.active && Running(s, i);
        assert Running(s', i);
      } else {
        ShutdownProtocol(s');
      }
    } else {
      StepQuiet(s, s');
    }
  }

  lemma StepProtocol(s: State, e: Event)
    requires Protocol(s) && Enabled(s, e)
    ensures Protocol(Apply(s, e))
  {
    match e
    case DriverIsOther => StepQuiet(s, Apply(s, e));
    case AeorProbed(listening) =>
      if !listening {
        StepStart(s, AwaitingAeor);
      }
    case AeorReady => StepQuiet(s, Apply(s, e));
    case KikxProbed(listening) =>
      if listening {
        StepFinish(s);
      } else {
        StepStart(s, AwaitingKikx);
      }
    case KikxListening => StepFinish(s);
    case StartupThrows => StepQuiet(s, Apply(s, e));
    case ChildExits(i, clean) => StepExit(s, i, clean);
    case Signal =>
      if s.phase.Ready? && !s.shuttingDown {
        ShutdownProtocol(s);
      } else if !s.phase.Ready? {
        StepQuiet(s, Apply(s, e));
      }
    case OtherSignal => StepQuiet(s, Apply(s, e));
    case ParentTick(same, alive) => StepTick(s, same, alive);
  }

  lemma {:induction false} RunProtocol(s: State, es: seq<Event>)
    requires Protocol(s) && Run(s, es)
    ensures Protocol(Exec(s, es))
    decreases |es|
  {
    if es == [] {
    } else {
      StepProtocol(s, es[0]);
      RunProtocol(Apply(s, es[0]), es[1..]);
    }
  }

  /** Under any order of signals, parent ticks and child exits: the shutdown body runs at most once,
      each child of its snapshot is signalled exactly once and no other child ever, the monitor's
      callback fires at most once, a shutdown that has not ended is waiting for a child that has not
      exited, and the process exits through it only when every child that was ever started is gone. */
  lemma ShutdownIsOrderly(es: seq<Event>)
    requires Run(Init, es)
    ensures var s := Exec(Init, es);
            && s.shutdowns == (if s.shuttingDown then 1 else 0)
            && (forall i :: 0 <= i < |s.kids| ==> s.kids[i].signals == if s.shuttingDown && i in s.active then 1 else 0)
            && (s.monitor.Some? ==> s.monitor.value.fired <= 1 && (s.monitor.value.fired == 1 ==> s.shuttingDown))
            && (s.shuttingDown && s.exit.None? ==> exists i: nat :: i in s.active && Running(s, i))
            && (s.exit == Some(ByShutdown) || s.exit == Some(NothingStarted) ==> forall i: nat :: !Running(s, i))
  {
    RunProtocol(Init, es);
  }

  /** Once a shutdown has begun, a tick that fires changes nothing but the monitor. */
  lemma LateTickIsIdle(s: State, same: bool, alive: bool)
    requires s.shuttingDown && Enabled(s, ParentTick(same, alive))
    ensures Apply(s, ParentTick(same, alive)).(monitor := s.monitor) == s
  {
  }

  /** A monitor that is installed during a shutdown, when Kikx listens after all, can still fire. */
  lemma LateMonitorFires(s: State)
    requires s.shuttingDown && s.exit.None? && s.phase.AwaitingKikx? && s.children != []
    ensures Enabled(s, KikxListening) && Enabled(Apply(s, KikxListening), ParentTick(false, false))
    ensures Apply(Apply(s, KikxListening), ParentTick(false, false)).monitor == Some(PM.Monitor(true, 1))
  {
  }

  /** And the script gets there: AeorDB fails while Kikx is awaited. */
  lemma ShutdownDuringStartup()
    ensures var es := [AeorProbed(false)] + ([AeorReady] + ([KikxProbed(false)] + ([ChildExits(0, false)] + [])));
            && Run(Init, es)
            && var s := Exec(Init, es);
               s.shuttingDown && s.exit.None? && s.phase.AwaitingKikx? && s.children != []
  {
    var s1 := Apply(Init, AeorProbed(false));
    var s2 := Apply(s1, AeorReady);
    var s3 := Apply(s2, KikxProbed(false));
    OnlyKikxLeft(s3);
    ExecCons(s3, ChildExits(0, false), []);
    ExecCons(s2, KikxProbed(false), [ChildExits(0, false)] + []);
    ExecCons(s1, AeorReady, [KikxProbed(false)] + ([ChildExits(0, false)] + []));
    ExecCons(Init, AeorProbed(false), [AeorReady] + ([KikxProbed(false)] + ([ChildExits(0, false)] + [])));
  }

  lemma OnlyKikxLeft(s: State)
    requires s == State([Kid(false, 0), Kid(false, 0)], [0, 1], false, [], AwaitingKikx, None, None, 0)
    ensures var s' := Apply(s, ChildExits(0, false));
            s'.shuttingDown && s'.exit.None? && s'.phase.AwaitingKikx? && s'.children != []
  {
    var kids, children := s.kids[0 := Kid(true, 0)], Without(s.children, 0);
    WithoutMembers(s.children, 0);
    assert s.children[1] == 1;
    SignalAllAt(kids, children);
    assert 1 in children && !SignalAll(kids, children)[1].exited;
  }

  lemma ExecCons(s: State, e: Event, es: seq<Event>)
    requires Enabled(s, e) && Run(Apply(s, e), es)
    ensures Run(s, [e] + es) && Exec(s, [e] + es) == Exec(Apply(s, e), es)
  {
    assert ([e] + es)[1..] == es;
  }

  // ----- what each event leads to

  /** A tick that finds the parent gone while the monitor runs. */
  predicate Fires(s: State, e: Event) {
    e.ParentTick? && s.monitor.Some? && !s.monitor.value.stopped && (!e.sameParent || !e.alive)
  }

  /** What shuts the stack down: a handled signal, an exit that is not clean, the loss of the parent. */
  predicate Triggers(s: State, e: Event) {
    (e.Signal? && s.phase.Ready?) || (e.ChildExits? && !e.clean) || Fires(s, e)
  }

  predicate Throws(s: State, e: Event) {
    e.StartupThrows?
  }

  predicate Unhandled(s: State, e: Event) {
    e.OtherSignal? || (e.Signal? && !s.phase.Ready?)
  }

  /** The end of the startup script. */
  predicate Finishes(s: State, e: Event) {
    e == KikxProbed(true) || e.KikxListening?
  }

  /** And there is something to hold. */
  predicate Holds(s: State, e: Event) {
    Finishes(s, e) && s.children != []
  }

  predicate FinishesAlone(s: State, e: Event) {
    Finishes(s, e) && s.children == []
  }

  /** Some event of the run is what is asked for, in the state it happens in. */
  predicate Sometime(s: State, es: seq<Event>, what: (State, Event) -> bool)
    requires Run(s, es)
    decreases |es|
  {
    es != [] && (what(s, es[0]) || Sometime(Apply(s, es[0]), es[1..], what))
  }

  /** How many children a run starts. */
  function Starts(es: seq<Event>): nat {
    if es == [] then 0
    else Starts(es[1..]) + if es[0] == AeorProbed(false) || es[0] == KikxProbed(false) then 1 else 0
  }

  lemma SignalAllLength(kids: seq<Kid>, active: seq<nat>)
    ensures |SignalAll(kids, active)| == |kids|
  {
    if active != [] {
      SignalAllLength(kids, active[..|active| - 1]);
    }
  }

  lemma StepLeads(s: State, e: Event)
    requires Enabled(s, e) && (s.monitor.Some? <==> s.phase.Ready?)
    ensures var s' := Apply(s, e);
            && (s'.shuttingDown <==> s.shuttingDown || Triggers(s, e))
            && (s'.exit == Some(StartupError) <==> Throws(s, e))
            && (s'.exit == Some(DefaultSignal) <==> Unhandled(s, e))
            && (s'.exit == Some(NothingStarted) <==> FinishesAlone(s, e))
            && (s'.phase.Ready? <==> s.phase.Ready? || (Finishes(s, e) && !FinishesAlone(s, e)))
            && (s'.monitor.Some? <==> s'.phase.Ready?)
            && |s'.kids| == |s.kids| + Starts([e])
  {
    assert [e][1..] == [];
    SignalAllLength(s.kids, s.children);
    if e.ChildExits? {
      SignalAllLength(s.kids[e.kid := s.kids[e.kid].(exited := true)], Without(s.children, e.kid));
    }
  }

  predicate Afterwards(s: State, es: seq<Event>)
    requires Run(s, es)
  {
    var s' := Exec(s, es);
    && (s'.shuttingDown <==> s.shuttingDown || Sometime(s, es, Triggers))
    && (s'.exit == Some(StartupError) <==> s.exit == Some(StartupError) || Sometime(s, es, Throws))
    && (s'.exit == Some(DefaultSignal) <==> s.exit == Some(DefaultSignal) || Sometime(s, es, Unhandled))
    && (s'.exit == Some(NothingStarted) <==> s.exit == Some(NothingStarted) || Sometime(s, es, FinishesAlone))
    && (s'.phase.Ready? <==> s.phase.Ready? || Sometime(s, es, Holds))
    && |s'.kids| == |s.kids| + Starts(es)
  }

  lemma {:induction false} RunLeads(s: State, es: seq<Event>)
    requires Run(s, es) && (s.monitor.Some? <==> s.phase.Ready?)
    ensures Afterwards(s, es)
    decreases |es|
  {
    if es == [] {
    } else {
      StepLeads(s, es[0]);
      if Apply(s, es[0]).exit.Some? {
        NothingAfterExit(Apply(s, es[0]), es[1..]);
      }
      RunLeads(Apply(s, es[0]), es[1..]);
      assert [es[0]][1..] == [];
    }
  }

  lemma NothingAfterExit(s: State, es: seq<Event>)
    requires Run(s, es) && s.exit.Some?
    ensures es == []
  {
  }

  /** Over all runs: the stack is shutting down exactly when a handled signal came once it was ready, a
      child exited uncleanly, or the parent was found gone; then every child still running has been
      signalled exactly once, and when none is left the process ends. It ends with an error exactly when
      the startup threw, by default action exactly on a signal without a handler, and with nothing to hold
      exactly when the startup ended without a child. It starts exactly the servers that were not
      listening. */
  lemma EventsDecide(es: seq<Event>)
    requires Run(Init, es)
    ensures var s := Exec(Init, es);
            && (s.shuttingDown <==> Sometime(Init, es, Triggers))
            && (s.exit == Some(StartupError) <==> Sometime(Init, es, Throws))
            && (s.exit == Some(DefaultSignal) <==> Sometime(Init, es, Unhandled))
            && (s.exit == Some(NothingStarted) <==> Sometime(Init, es, FinishesAlone))
            && (s.phase.Ready? <==> Sometime(Init, es, Holds))
            && |s.kids| == Starts(es)
            && (s.shuttingDown ==> forall i: nat :: Running(s, i) ==> s.kids[i].signals == 1)
            && (s.shuttingDown && (forall i: nat :: !Running(s, i)) ==> s.exit.Some?)
            && (!s.shuttingDown ==> forall i :: 0 <= i < |s.kids| ==> s.kids[i].signals == 0)
  {
    RunLeads(Init, es);
    RunProtocol(Init, es);
  }

  lemma {:induction false} EarlyUntilReady(s: State, es: seq<Event>)
    requires Run(s, es) && (s.phase.ProbingAeor? || s.phase.AwaitingAeor?)
    requires exists e :: e in es && e.KikxProbed?
    ensures DriverIsOther in es || AeorReady in es
    decreases |es|
  {
    var e :| e in es && e.KikxProbed?;
    assert es == [es[0]] + es[1..];
    if es[0] != DriverIsOther && es[0] != AeorReady {
      assert e in es[1..];
      EarlyUntilReady(Apply(s, es[0]), es[1..]);
    }
  }

  /** Kikx is only looked for once AeorDB has reported ready, whoever started it, or is not the driver. */
  lemma KikxComesAfterAeorDB(es: seq<Event>)
    requires Run(Init, es) && exists e :: e in es && e.KikxProbed?
    ensures DriverIsOther in es || AeorReady in es
  {
    EarlyUntilReady(Init, es);
  }

  /** The ends of the process that no shutdown precedes: a startup that throws, a signal before the
      handlers are installed, and at any time a signal that has no handler. */
  predicate EndsUnprepared(s: State, e: Event) {
    e.StartupThrows? || e.OtherSignal? || (e.Signal? && !s.phase.Ready?)
  }

  /** A step that ends the process leaves children running exactly when it is one of these and a child
      is running at that moment. */
  lemma AbandonsIff(s: State, e: Event)
    requires Protocol(s) && Enabled(s, e) && Apply(s, e).exit.Some?
    ensures (exists i: nat :: Running(Apply(s, e), i)) <==> EndsUnprepared(s, e) && exists i: nat :: Running(s, i)
  {
    var s' := Apply(s, e);
    StepProtocol(s, e);
    if EndsUnprepared(s, e) {
      assert forall i: nat :: Running(s', i) <==> Running(s, i);
    } else {
      assert s'.exit == Some(ByShutdown) || s'.exit == Some(NothingStarted);
    }
  }

  /** It happens: Kikx never listens within its deadline, and its process group is left running
      without having been signalled. */
  lemma StartupErrorAbandons()
    ensures var es := [DriverIsOther, KikxProbed(false), StartupThrows];
            && Run(Init, es)
            && Exec(Init, es).exit == Some(StartupError)
            && Exec(Init, es).kids == [Kid(false, 0)]
  {
    var es := [DriverIsOther, KikxProbed(false), StartupThrows];
    var s1 := Apply(Init, es[0]);
    var s2 := Apply(s1, es[1]);
    assert es[1..][0] == es[1] && es[1..][1..] == [es[2]];
    assert [es[2]][1..] == [];
    assert Run(s2, [es[2]]) && Run(s1, es[1..]);
    assert Exec(s1, es[1..]) == Exec(s2, [es[2]]) == Apply(s2, es[2]);
  }
}
