/** The supervisor of scripts/dev-watch.mjs as a step system: `main`, `startKikx`, `stopChild`,
    `cleanup` and the 'exit' handler, interleaved at every await by an adversary who decides when a
    child exits, when a wait times out, what a health probe answers, what a fingerprint is and when a
    signal arrives, one it handles or one that simply ends it. */
module DevWatch {
  import opened Prelude

  type Fingerprint = string

  /** A spawned process group: whether it has exited and which signals it was sent. */
  datatype Child = Child(exited: bool, termed: bool, killed: bool)

  /** Why startKikx runs. A change carries the recorded fingerprint and the two samples against it. */
  datatype Why = First | Crash | Change(before: Fingerprint, first: Fingerprint, second: Fingerprint)

  /** The await `main` is suspended at. */
  datatype MainPc =
    | Probing(why: Why)                 // isHealthy, when there is no child yet
    | StopTerm(why: Why, child: nat)    // waitForExit(3000) after SIGTERM
    | StopKill(why: Why, child: nat)    // waitForExit(1000) after SIGKILL
    | WaitHealth(why: Why)
    | SampleAfter(why: Why)             // the sample taken once the child is ready
    | Sleeping                          // sleep(1000)
    | Sampling
    | Debouncing(first: Fingerprint)    // sleep(250)
    | Resampling(first: Fingerprint)
    | Returned

  /** The await `cleanup` is suspended at. */
  datatype CleanupPc = NotStarted | CleanTerm(child: nat) | CleanKill(child: nat)

  /** One spawn, with the fingerprint that was recorded when it happened. */
  datatype Spawn = Spawn(why: Why, recorded: Fingerprint)

  /** How the process ended: through process.exit or an error in main, after the 'exit' handler, or by a
      signal it does not handle, without one. */
  datatype Ending = Exited(code: nat) | Killed

  /** `log` is a history variable. */
  datatype State = State(
    children: seq<Child>,
    current: Option<nat>,
    shuttingDown: bool,
    last: Fingerprint,
    main: MainPc,
    cleanup: CleanupPc,
    exit: Option<Ending>,
    log: seq<Spawn>)

  datatype Event =
    | ProbeAnswers(healthy: bool)
    | ChildExits(child: nat)
    | StopSeesExit
    | StopTimesOut
    | HealthReady
    | HealthFails
    | Sampled(fp: Fingerprint)
    | SampleThrows
    | PollWakes
    | DebounceWakes
    | Signal
    | OtherSignal                       // neither SIGINT nor SIGTERM
    | CleanupSeesExit
    | CleanupTimesOut

  const Init: State := State([], None, false, "", Probing(First), NotStarted, None, [])

  /** Every child that is named exists. */
  predicate WellFormed(s: State) {
    && (s.current.Some? ==> s.current.value < |s.children|)
    && (s.main.StopTerm? || s.main.StopKill? ==> s.main.child < |s.children|)
    && (s.cleanup.CleanTerm? || s.cleanup.CleanKill? ==> s.cleanup.child < |s.children|)
  }

  predicate Enabled(s: State, e: Event)
    requires WellFormed(s)
  {
    s.exit.None? &&
    match e
    case ProbeAnswers(_) => s.main.Probing?
    case ChildExits(i) => i < |s.children| && !s.children[i].exited
    case StopSeesExit => (s.main.StopTerm? || s.main.StopKill?) && s.children[s.main.child].exited
    case StopTimesOut => (s.main.StopTerm? || s.main.StopKill?) && !s.children[s.main.child].exited
    case HealthReady => s.main.WaitHealth?
    case HealthFails => s.main.WaitHealth?
    case Sampled(_) => s.main.SampleAfter? || s.main.Sampling? || s.main.Resampling?
    case SampleThrows => s.main.SampleAfter? || s.main.Sampling? || s.main.Resampling?
    case PollWakes => s.main.Sleeping?
    case DebounceWakes => s.main.Debouncing?
    case Signal => true
    case OtherSignal => true
    case CleanupSeesExit => !s.cleanup.NotStarted? && s.children[s.cleanup.child].exited
    case CleanupTimesOut => !s.cleanup.NotStarted? && !s.children[s.cleanup.child].exited
  }

  function SendTerm(children: seq<Child>, i: nat): seq<Child>
    requires i < |children|
  {
    children[i := children[i].(termed := true)]
  }

  function SendKill(children: seq<Child>, i: nat): seq<Child>
    requires i < |children|
  {
    children[i := children[i].(killed := true)]
  }

  /** process.exit, or an error that leaves main: the 'exit' handler stops the current child by force. */
  function ExitWith(s: State, code: nat): State
    requires WellFormed(s)
  {
    var children :=
      if s.current.Some? && !s.children[s.current.value].exited
      then SendKill(SendTerm(s.children, s.current.value), s.current.value)
      else s.children;
    s.(children := children, exit := Some(Exited(code)))
  }

  function SpawnKikx(s: State, why: Why): State {
    s.(children := s.children + [Child(false, false, false)],
       current := Some(|s.children|),
       main := WaitHealth(why),
       log := s.log + [Spawn(why, s.last)])
  }

  /** startKikx up to its first suspension, or through it when the old child has exited. */
  function StartKikx(s: State, why: Why): State
    requires WellFormed(s)
  {
    if s.current.None? then s.(main := Probing(why))
    else if s.children[s.current.value].exited then SpawnKikx(s, why)
    else s.(children := SendTerm(s.children, s.current.value), main := StopTerm(why, s.current.value))
  }

  /** `while (!shuttingDown)` */
  function LoopHead(s: State): State {
    s.(main := if s.shuttingDown then Returned else Sleeping)
  }

  /** What main does with a fingerprint. */
  function OnSample(s: State, fp: Fingerprint): (s': State)
    requires WellFormed(s) && (s.main.SampleAfter? || s.main.Sampling? || s.main.Resampling?)
    ensures WellFormed(s')
  {
    if s.main.SampleAfter? then LoopHead(s.(last := fp))
    else if fp == s.last then LoopHead(s)
    else if s.main.Sampling? then s.(main := Debouncing(fp))
    else StartKikx(s.(last := fp), Change(s.last, s.main.first, fp))
  }

  /** cleanup up to its first suspension. */
  function CleanUp(s: State): (s': State)
    requires WellFormed(s)
    ensures WellFormed(s')
  {
    if s.shuttingDown then s
    else if s.current.None? || s.children[s.current.value].exited then ExitWith(s.(shuttingDown := true), 0)
    else s.(shuttingDown := true,
            children := SendTerm(s.children, s.current.value),
            cleanup := CleanTerm(s.current.value))
  }

  function Apply(s: State, e: Event): (s': State)
    requires WellFormed(s) && Enabled(s, e)
    ensures WellFormed(s')
  {
    match e
    case ProbeAnswers(healthy) => if healthy then ExitWith(s, 1) else SpawnKikx(s, s.main.why)
    case ChildExits(i) => s.(children := s.children[i := s.children[i].(exited := true)])
    case StopSeesExit => SpawnKikx(s, s.main.why)
    case StopTimesOut =>
      if s.main.StopTerm?
      then s.(children := SendKill(s.children, s.main.child), main := StopKill(s.main.why, s.main.child))
      else SpawnKikx(s, s.main.why)
    case HealthReady => if s.main.why.Change? then LoopHead(s) else s.(main := SampleAfter(s.main.why))
    case HealthFails => ExitWith(s, 1)
    case Sampled(fp) => OnSample(s, fp)
    case SampleThrows => ExitWith(s, 1)
    case PollWakes =>
      if s.current.Some? && s.children[s.current.value].exited && !s.shuttingDown then StartKikx(s, Crash)
      else s.(main := Sampling)
    case DebounceWakes => s.(main := Resampling(s.main.first))
    case Signal => CleanUp(s)
    case OtherSignal => s.(exit := Some(Killed))
    case CleanupSeesExit => ExitWith(s, 0)
    case CleanupTimesOut =>
      if s.cleanup.CleanTerm?
      then s.(children := SendKill(s.children, s.cleanup.child), cleanup := CleanKill(s.cleanup.child))
      else ExitWith(s, 0)
  }

  predicate Run(s: State, es: seq<Event>)
    decreases |es|
  {
    WellFormed(s) && (es != [] ==> Enabled(s, es[0]) && Run(Apply(s, es[0]), es[1..]))
  }

  function Exec(s: State, es: seq<Event>): (s': State)
    requires Run(s, es)
    ensures WellFormed(s')
    decreases |es|
  {
    if es == [] then s else Exec(Apply(s, es[0]), es[1..])
  }

  lemma ExecCons(s: State, e: Event, es: seq<Event>)
    requires WellFormed(s) && Enabled(s, e) && Run(Apply(s, e), es)
    ensures Run(s, [e] + es) && Exec(s, [e] + es) == Exec(Apply(s, e), es)
  {
    assert ([e] + es)[1..] == es;
  }

  // ----- no child is abandoned

  /** Gone, or sure to go. */
  predicate Settled(c: Child) {
    c.exited || c.killed
  }

  /** The current child is the one spawned last; every other is settled, as is the current one when
      it is about to be replaced and when the process is over. SIGKILL only follows SIGTERM. */
  predicate Tended(s: State) {
    && WellFormed(s)
    && (s.current == if |s.children| == 0 then None else Some(|s.children| - 1))
    && |s.log| == |s.children|
    && (forall i :: 0 <= i < |s.children| && s.current != Some(i) ==> Settled(s.children[i]))
    && (forall i :: 0 <= i < |s.children| && s.children[i].killed ==> s.children[i].termed)
    && (s.main.Probing? ==> s.current.None?)
    && (s.main.StopTerm? || s.main.StopKill? ==> s.current == Some(s.main.child))
    && (s.main.StopTerm? ==> s.children[s.main.child].termed)
    && (s.main.StopKill? ==> s.children[s.main.child].killed)
    && (s.cleanup.CleanTerm? || s.cleanup.CleanKill? ==> s.children[s.cleanup.child].termed)
    && (s.cleanup.CleanKill? ==> s.children[s.cleanup.child].killed)
    && (s.shuttingDown && s.exit.None? ==> !s.cleanup.NotStarted?)
    && (!s.shuttingDown ==> s.cleanup.NotStarted?)
    && (s.main.Sleeping? || s.main.Sampling? || s.main.Debouncing? || s.main.Resampling? ==> s.current.Some?)
    && (s.main.SampleAfter? || s.main.WaitHealth? ==> s.current.Some?)
    && (s.exit.Some? && s.exit.value.Exited? ==> forall i :: 0 <= i < |s.children| ==> Settled(s.children[i]))
  }

  lemma ExitTended(s: State, code: nat, down: bool)
    requires Tended(s) && s.exit.None? && (s.shuttingDown ==> down)
    ensures Tended(ExitWith(s.(shuttingDown := down), code))
  {
  }

  lemma SpawnTended(s: State, why: Why)
    requires Tended(s) && s.exit.None? && (s.current.Some? ==> Settled(s.children[s.current.value]))
    ensures Tended(SpawnKikx(s, why))
  {
  }

  /** Main stays at an await where it names no child, or goes to another one. */
  lemma ParkTended(s: State, main: MainPc, last: Fingerprint)
    requires Tended(s) && s.exit.None? && s.current.Some?
    requires !main.Probing? && !main.StopTerm? && !main.StopKill?
    ensures Tended(s.(main := main, last := last))
  {
  }

  lemma StartTended(s: State, why: Why)
    requires Tended(s) && s.exit.None? && s.current.Some?
    ensures Tended(StartKikx(s, why))
  {
    if s.children[s.current.value].exited {
      SpawnTended(s, why);
    }
  }

  lemma ChildTended(s: State, i: nat)
    requires Tended(s) && Enabled(s, ChildExits(i))
    ensures Tended(Apply(s, ChildExits(i)))
  {
  }

  lemma StopTended(s: State, e: Event)
    requires Tended(s) && Enabled(s, e) && (e.StopSeesExit? || e.StopTimesOut?)
    ensures Tended(Apply(s, e))
  {
    if e.StopSeesExit? || s.main.StopKill? {
      SpawnTended(s, s.main.why);
    }
  }

  lemma CleanupTended(s: State, e: Event)
    requires Tended(s) && Enabled(s, e) && (e.Signal? || e.CleanupSeesExit? || e.CleanupTimesOut?)
    ensures Tended(Apply(s, e))
  {
    if e.Signal? {
      if !s.shuttingDown && (s.current.None? || s.children[s.current.value].exited) {
        ExitTended(s, 0, true);
      }
    } else if e.CleanupSeesExit? || s.cleanup.CleanKill? {
      ExitTended(s, 0, s.shuttingDown);
    }
  }

  lemma SampledTended(s: State, fp: Fingerprint)
    requires Tended(s) && Enabled(s, Sampled(fp))
    ensures Tended(Apply(s, Sampled(fp)))
  {
    var s' := Apply(s, Sampled(fp));
    if s.main.Resampling? && fp != s.last {
      ParkTended(s, s.main, fp);
      StartTended(s.(last := fp), Change(s.last, s.main.first, fp));
    } else {
      ParkTended(s, s'.main, s'.last);
    }
  }

  lemma StepTended(s: State, e: Event)
    requires Tended(s) && Enabled(s, e)
    ensures Tended(Apply(s, e))
  {
    match e
    case ProbeAnswers(healthy) =>
      if healthy {
        ExitTended(s, 1, s.shuttingDown);
      } else {
        SpawnTended(s, s.main.why);
      }
    case ChildExits(i) => ChildTended(s, i);
    case StopSeesExit => StopTended(s, e);
    case StopTimesOut => StopTended(s, e);
    case HealthReady => ParkTended(s, Apply(s, e).main, s.last);
    case HealthFails => ExitTended(s, 1, s.shuttingDown);
    case Sampled(fp) => SampledTended(s, fp);
    case SampleThrows => ExitTended(s, 1, s.shuttingDown);
    case PollWakes =>
      if s.children[s.current.value].exited && !s.shuttingDown {
        StartTended(s, Crash);
      } else {
        ParkTended(s, Sampling, s.last);
      }
    case DebounceWakes => ParkTended(s, Resampling(s.main.first), s.last);
    case Signal => CleanupTended(s, e);
    case OtherSignal =>
    case CleanupSeesExit => CleanupTended(s, e);
    case CleanupTimesOut => CleanupTended(s, e);
  }

  lemma {:induction false} RunTended(s: State, es: seq<Event>)
    requires Run(s, es) && Tended(s)
    ensures Tended(Exec(s, es))
    decreases |es|
  {
    if es == [] {
    } else {
      StepTended(s, es[0]);
      RunTended(Apply(s, es[0]), es[1..]);
    }
  }

  /** In every reachable interleaving of restarts, shutdown and child exits, each child that was
      replaced has exited or been sent SIGKILL, SIGKILL was always preceded by SIGTERM, and when the
      process exits, after a signal it handles or an error in main, this holds for the last child as
      well. */
  lemma NoChildAbandoned(es: seq<Event>)
    requires Run(Init, es)
    ensures Attended(Exec(Init, es))
  {
    RunTended(Init, es);
    ExitCodes(Init, es);
  }

  predicate Attended(s: State) {
    && (forall i :: 0 <= i < |s.children| - 1 ==> Settled(s.children[i]))
    && (forall i :: 0 <= i < |s.children| && s.children[i].killed ==> s.children[i].termed)
    && (s.exit.Some? && s.exit.value.Exited? ==> forall i :: 0 <= i < |s.children| ==> Settled(s.children[i]))
    && (s.exit == Some(Exited(0)) ==> s.shuttingDown)
  }

  lemma {:induction false} ExitCodes(s: State, es: seq<Event>)
    requires Run(s, es) && Tended(s) && (s.exit == Some(Exited(0)) ==> s.shuttingDown)
    ensures Exec(s, es).exit == Some(Exited(0)) ==> Exec(s, es).shuttingDown
    decreases |es|
  {
    if es == [] {
    } else {
      StepTended(s, es[0]);
      ExitCodes(Apply(s, es[0]), es[1..]);
    }
  }

  /** A step that ends the process leaves a child behind exactly when it is a signal the script does not
      handle and the current child is neither gone nor sure to go: no 'exit' handler runs then. */
  lemma AbandonsIff(s: State, e: Event)
    requires Tended(s) && Enabled(s, e) && Apply(s, e).exit.Some?
    ensures (exists i :: 0 <= i < |s.children| && !Settled(Apply(s, e).children[i]))
        <==> e.OtherSignal? && s.current.Some? && !Settled(s.children[s.current.value])
  {
    StepTended(s, e);
    if e.OtherSignal? && s.current.Some? && !Settled(s.children[s.current.value]) {
      assert !Settled(Apply(s, e).children[s.current.value]);
    }
  }

  // ----- how it starts and how it ends

  /** Errors that leave main. */
  predicate Fails(e: Event) {
    e == ProbeAnswers(true) || e.HealthFails? || e.SampleThrows?
  }

  lemma StepEnds(s: State, e: Event)
    requires Tended(s) && Enabled(s, e)
    ensures Apply(s, e).exit == Some(Exited(1)) <==> Fails(e)
    ensures Apply(s, e).exit == Some(Killed) <==> e.OtherSignal?
    ensures Apply(s, e).exit.Some? && Apply(s, e).exit.value.Exited? ==> Apply(s, e).exit.value.code <= 1
    ensures Apply(s, e).shuttingDown <==> s.shuttingDown || e.Signal?
    ensures Apply(s, e).log != [] <==> s.log != [] || e == ProbeAnswers(false)
    ensures e == ProbeAnswers(true) ==> Apply(s, e).children == []
  {
  }

  /** Over all runs, by the events alone. The process exits with one exactly after an error: a server
      that already answers, a child that never becomes healthy, a sample that fails. It is killed exactly
      by a signal without a handler. It is shutting down exactly once a handled signal came. Children are
      only ever spawned after the first probe found no server, and when it found one, none is. While a
      shutdown is under way some child has been sent SIGTERM. */
  lemma {:induction false} EndsIff(es: seq<Event>)
    requires Run(Init, es)
    ensures var s := Exec(Init, es);
            && (s.exit == Some(Exited(1)) <==> exists e :: e in es && Fails(e))
            && (s.exit == Some(Killed) <==> OtherSignal in es)
            && (s.exit.Some? && s.exit.value.Exited? ==> s.exit.value.code <= 1)
            && (s.shuttingDown <==> Signal in es)
            && (s.log != [] <==> ProbeAnswers(false) in es)
            && (ProbeAnswers(true) in es ==> s.children == [] && s.log == [] && s.exit == Some(Exited(1)))
            && (s.shuttingDown && s.exit.None? ==> exists i :: 0 <= i < |s.children| && s.children[i].termed)
  {
    RunTended(Init, es);
    if es == [] {
    } else {
      var front, e := es[..|es| - 1], es[|es| - 1];
      ExecSnoc(Init, es);
      EndsIff(front);
      RunTended(Init, front);
      StepEnds(Exec(Init, front), e);
      assert es == front + [e];
      EndsSnoc(front, e);
    }
  }

  lemma EndsSnoc(front: seq<Event>, e: Event)
    ensures forall x :: x in front + [e] <==> x in front || x == e
    ensures (exists x :: x in front + [e] && Fails(x)) <==> (exists x :: x in front && Fails(x)) || Fails(e)
  {
    assert e in front + [e];
  }

  // ----- when a child is signalled and when it is replaced

  /** Stopping child i begins: a second sample differs while it runs, or the first handled signal finds it
      running. */
  predicate StopsChild(s: State, e: Event, i: nat)
    requires WellFormed(s)
  {
    && s.current == Some(i) && !s.children[i].exited
    && ((e.Signal? && !s.shuttingDown) || (e.Sampled? && s.main.Resampling? && e.fp != s.last))
  }

  /** The wait for child i that follows its SIGTERM ends without the child. */
  predicate RunsOut(s: State, e: Event, i: nat) {
    || (e.StopTimesOut? && s.main.StopTerm? && s.main.child == i)
    || (e.CleanupTimesOut? && s.cleanup.CleanTerm? && s.cleanup.child == i)
  }

  predicate EverStops(s: State, es: seq<Event>, i: nat)
    requires Run(s, es)
    decreases |es|
  {
    es != [] && (StopsChild(s, es[0], i) || EverStops(Apply(s, es[0]), es[1..], i))
  }

  predicate EverRunsOut(s: State, es: seq<Event>, i: nat)
    requires Run(s, es)
    decreases |es|
  {
    es != [] && (RunsOut(s, es[0], i) || EverRunsOut(Apply(s, es[0]), es[1..], i))
  }

  predicate Termed(s: State, i: nat) {
    i < |s.children| && s.children[i].termed
  }

  predicate Forced(s: State, i: nat) {
    i < |s.children| && s.children[i].killed
  }

  lemma StepSignals(s: State, e: Event, i: nat)
    requires WellFormed(s) && Enabled(s, e) && Apply(s, e).exit.None?
    ensures Termed(Apply(s, e), i) <==> Termed(s, i) || StopsChild(s, e, i)
    ensures Forced(Apply(s, e), i) <==> Forced(s, i) || RunsOut(s, e, i)
  {
  }

  lemma {:induction false} RunSignals(s: State, es: seq<Event>, i: nat)
    requires Run(s, es) && Exec(s, es).exit.None?
    ensures Termed(Exec(s, es), i) <==> Termed(s, i) || EverStops(s, es, i)
    ensures Forced(Exec(s, es), i) <==> Forced(s, i) || EverRunsOut(s, es, i)
    decreases |es|
  {
    if es == [] {
    } else {
      assert es[1..] != [] ==> Apply(s, es[0]).exit.None?;
      StepSignals(s, es[0], i);
      RunSignals(Apply(s, es[0]), es[1..], i);
    }
  }

  /** While the process lives, a child has been sent SIGTERM exactly if stopping it has begun, and SIGKILL
      exactly if the wait after that ran out. */
  lemma SignalledIff(es: seq<Event>, i: nat)
    requires Run(Init, es) && Exec(Init, es).exit.None? && i < |Exec(Init, es).children|
    ensures Exec(Init, es).children[i].termed <==> EverStops(Init, es, i)
    ensures Exec(Init, es).children[i].killed <==> EverRunsOut(Init, es, i)
  {
    RunSignals(Init, es, i);
  }

  /** A poll finds the child gone. */
  predicate FindsGone(s: State, e: Event)
    requires WellFormed(s)
  {
    e.PollWakes? && s.current.Some? && s.children[s.current.value].exited && !s.shuttingDown
  }

  function TimesGone(s: State, es: seq<Event>): nat
    requires Run(s, es)
    decreases |es|
  {
    if es == [] then 0 else (if FindsGone(s, es[0]) then 1 else 0) + TimesGone(Apply(s, es[0]), es[1..])
  }

  function CrashSpawns(log: seq<Spawn>): nat {
    if log == [] then 0 else CrashSpawns(log[..|log| - 1]) + if log[|log| - 1].why.Crash? then 1 else 0
  }

  /** Only the first child is spawned as the first, and a crash restart replaces a child that is gone. */
  predicate Reasons(s: State) {
    && (s.main.Probing? ==> s.main.why.First?)
    && (s.main.StopTerm? || s.main.StopKill? ==> s.main.why.Change?)
    && (forall k :: 0 <= k < |s.log| ==> (s.log[k].why.First? <==> k == 0))
    && (forall k :: 0 < k < |s.log| && k < |s.children| && s.log[k].why.Crash? ==> s.children[k - 1].exited)
  }

  /** What a step adds to the log. */
  predicate Adds(log: seq<Spawn>, log': seq<Spawn>, gone: bool) {
    || (!gone && log' == log)
    || (|log'| == |log| + 1 && log' == log + [log'[|log|]]
        && (log'[|log|].why.First? <==> log == []) && (log'[|log|].why.Crash? <==> gone))
  }

  lemma StepAdds(s: State, e: Event)
    requires Tended(s) && Reasons(s) && Enabled(s, e)
    ensures Adds(s.log, Apply(s, e).log, FindsGone(s, e))
  {
  }

  lemma StepReasons(s: State, e: Event)
    requires Tended(s) && Reasons(s) && Enabled(s, e)
    ensures Reasons(Apply(s, e))
  {
    StepAdds(s, e);
    StepKeepsGone(s, e);
    assert !FindsGone(s, e) ==> forall k :: |s.log| <= k < |Apply(s, e).log| ==> !Apply(s, e).log[k].why.Crash?;
  }

  lemma StepKeepsGone(s: State, e: Event)
    requires WellFormed(s) && Enabled(s, e)
    ensures |s.children| <= |Apply(s, e).children|
    ensures forall i :: 0 <= i < |s.children| && s.children[i].exited ==> Apply(s, e).children[i].exited
  {
  }

  lemma CrashSpawnsAdds(log: seq<Spawn>, log': seq<Spawn>, gone: bool)
    requires Adds(log, log', gone)
    ensures CrashSpawns(log') == CrashSpawns(log) + if gone then 1 else 0
  {
    if log' != log {
      assert log'[..|log|] == log;
    }
  }

  lemma {:induction false} RunCrash(s: State, es: seq<Event>)
    requires Run(s, es) && Tended(s) && Reasons(s)
    ensures Reasons(Exec(s, es)) && CrashSpawns(Exec(s, es).log) == CrashSpawns(s.log) + TimesGone(s, es)
    decreases |es|
  {
    if es == [] {
    } else {
      StepTended(s, es[0]);
      StepReasons(s, es[0]);
      StepAdds(s, es[0]);
      CrashSpawnsAdds(s.log, Apply(s, es[0]).log, FindsGone(s, es[0]));
      RunCrash(Apply(s, es[0]), es[1..]);
    }
  }

  /** Over all runs: as many children are spawned for a crash as polls find the child gone, each in place of
      a child that has exited, and the first child alone is spawned for no reason but the start. */
  lemma CrashesAreRestarted(es: seq<Event>)
    requires Run(Init, es)
    ensures (var s := Exec(Init, es);
             && CrashSpawns(s.log) == TimesGone(Init, es)
             && |s.log| == |s.children|
             && (forall k :: 0 <= k < |s.log| ==> (s.log[k].why.First? <==> k == 0))
             && (forall k :: 0 < k < |s.log| && s.log[k].why.Crash? ==> s.children[k - 1].exited))
  {
    RunTended(Init, es);
    RunCrash(Init, es);
  }

  /** It happens: a signal without a handler ends the script after the first start, and the child runs
      on, unsignalled. */
  lemma AbandonedChild(a: Fingerprint)
    ensures var es := [ProbeAnswers(false)] + ([HealthReady] + ([Sampled(a)] + ([OtherSignal] + [])));
            && Run(Init, es)
            && Exec(Init, es).exit == Some(Killed)
            && Exec(Init, es).children == [Child(false, false, false)]
  {
    ExecCons(Watching(a), OtherSignal, []);
    FirstStart(a, [OtherSignal] + []);
  }

  /** Once shutdown has begun it ends: the process is over, or its own next wait can end, by the
      child's exit or by time, and at most two such waits are left. */
  function WaitsLeft(s: State): nat {
    if s.exit.Some? || s.cleanup.NotStarted? then 0 else if s.cleanup.CleanTerm? then 2 else 1
  }

  lemma WaitsNeverGrow(s: State, e: Event)
    requires Tended(s) && s.shuttingDown && s.exit.None? && Enabled(s, e)
    ensures WaitsLeft(Apply(s, e)) <= WaitsLeft(s) && Apply(s, e).shuttingDown
  {
  }

  lemma ShutdownProgress(es: seq<Event>)
    requires Run(Init, es) && Exec(Init, es).shuttingDown && Exec(Init, es).exit.None?
    ensures var s := Exec(Init, es);
            && (Enabled(s, CleanupSeesExit) || Enabled(s, CleanupTimesOut))
            && (Enabled(s, CleanupSeesExit) ==> Apply(s, CleanupSeesExit).exit == Some(Exited(0)))
            && (Enabled(s, CleanupTimesOut) ==> WaitsLeft(Apply(s, CleanupTimesOut)) < WaitsLeft(s))
            && (forall e :: Enabled(s, e) ==> WaitsLeft(Apply(s, e)) <= WaitsLeft(s) && Apply(s, e).shuttingDown)
  {
    RunTended(Init, es);
    forall e | Enabled(Exec(Init, es), e)
      ensures WaitsLeft(Apply(Exec(Init, es), e)) <= WaitsLeft(Exec(Init, es)) && Apply(Exec(Init, es), e).shuttingDown
    {
      WaitsNeverGrow(Exec(Init, es), e);
    }
  }

  // ----- spawning after shutdown began

  /** Where main still comes to a spawn although it is shutting down. */
  predicate MaySpawn(pc: MainPc) {
    pc.StopTerm? || pc.StopKill? || pc.Sleeping? || pc.Sampling? || pc.Debouncing? || pc.Resampling?
  }

  function SpawnsLeft(s: State): nat {
    if MaySpawn(s.main) then 1 else 0
  }

  lemma StepSpawns(s: State, e: Event)
    requires Tended(s) && s.shuttingDown && Enabled(s, e)
    ensures Apply(s, e).shuttingDown
    ensures |Apply(s, e).log| + SpawnsLeft(Apply(s, e)) <= |s.log| + SpawnsLeft(s)
  {
  }

  /** Once shutdown has begun there is never more than one further spawn, and only from there. */
  lemma {:induction false} FewSpawnsAfterShutdown(s: State, es: seq<Event>)
    requires Tended(s) && s.shuttingDown && Run(s, es)
    ensures |Exec(s, es).log| <= |s.log| + SpawnsLeft(s)
    decreases |es|
  {
    if es == [] {
    } else {
      StepTended(s, es[0]);
      StepSpawns(s, es[0]);
      FewSpawnsAfterShutdown(Apply(s, es[0]), es[1..]);
    }
  }

  /** es leads from s to one more spawn. */
  predicate LeadsToSpawn(s: State, es: seq<Event>) {
    Run(s, es) && |Exec(s, es).log| > |s.log|
  }

  ghost predicate CanSpawn(s: State) {
    exists es :: LeadsToSpawn(s, es)
  }

  /** A spawn within reach of the next state is within reach. */
  lemma SpawnBefore(s: State, e: Event)
    requires WellFormed(s) && Enabled(s, e) && |Apply(s, e).log| == |s.log| && CanSpawn(Apply(s, e))
    ensures CanSpawn(s)
  {
    var es :| LeadsToSpawn(Apply(s, e), es);
    ExecCons(s, e, es);
    assert LeadsToSpawn(s, [e] + es);
  }

  lemma SpawnNow(s: State, e: Event)
    requires WellFormed(s) && Enabled(s, e) && |Apply(s, e).log| > |s.log|
    ensures CanSpawn(s)
  {
    assert Run(Apply(s, e), []);
    ExecCons(s, e, []);
    assert LeadsToSpawn(s, [e] + []);
  }

  lemma SpawnFromStop(s: State)
    requires Tended(s) && s.exit.None? && (s.main.StopTerm? || s.main.StopKill?)
    ensures CanSpawn(s)
  {
    if s.children[s.main.child].exited {
      SpawnNow(s, StopSeesExit);
    } else if s.main.StopKill? {
      SpawnNow(s, StopTimesOut);
    } else {
      SpawnNow(Apply(s, StopTimesOut), StopTimesOut);
      SpawnBefore(s, StopTimesOut);
    }
  }

  lemma SpawnFromSecondSample(s: State)
    requires Tended(s) && s.exit.None? && s.main.Resampling?
    ensures CanSpawn(s)
  {
    var e := Sampled(s.last + "!");
    StepTended(s, e);
    if s.children[s.current.value].exited {
      SpawnNow(s, e);
    } else {
      SpawnFromStop(Apply(s, e));
      SpawnBefore(s, e);
    }
  }

  lemma SpawnFromDebounce(s: State)
    requires Tended(s) && s.exit.None? && s.main.Debouncing?
    ensures CanSpawn(s)
  {
    StepTended(s, DebounceWakes);
    SpawnFromSecondSample(Apply(s, DebounceWakes));
    SpawnBefore(s, DebounceWakes);
  }

  lemma SpawnFromFirstSample(s: State)
    requires Tended(s) && s.exit.None? && s.main.Sampling?
    ensures CanSpawn(s)
  {
    var e := Sampled(s.last + "!");
    StepTended(s, e);
    SpawnFromDebounce(Apply(s, e));
    SpawnBefore(s, e);
  }

  lemma SpawnFromSleep(s: State)
    requires Tended(s) && s.exit.None? && s.shuttingDown && s.main.Sleeping?
    ensures CanSpawn(s)
  {
    StepTended(s, PollWakes);
    SpawnFromFirstSample(Apply(s, PollWakes));
    SpawnBefore(s, PollWakes);
  }

  /** startKikx does not look at shuttingDown. After any run that has begun to shut down, a further
      spawn is within reach exactly when main is stopping the old child or anywhere in a poll, and no
      continuation has more than one. */
  lemma SpawnAfterShutdownIff(es: seq<Event>)
    requires Run(Init, es) && Exec(Init, es).shuttingDown && Exec(Init, es).exit.None?
    ensures CanSpawn(Exec(Init, es)) <==> MaySpawn(Exec(Init, es).main)
    ensures forall more :: Run(Exec(Init, es), more) ==> |Exec(Exec(Init, es), more).log| <= |Exec(Init, es).log| + 1
  {
    var s := Exec(Init, es);
    RunTended(Init, es);
    forall more | Run(s, more)
      ensures |Exec(s, more).log| <= |s.log| + SpawnsLeft(s)
    {
      FewSpawnsAfterShutdown(s, more);
    }
    if s.main.StopTerm? || s.main.StopKill? {
      SpawnFromStop(s);
    } else if s.main.Resampling? {
      SpawnFromSecondSample(s);
    } else if s.main.Debouncing? {
      SpawnFromDebounce(s);
    } else if s.main.Sampling? {
      SpawnFromFirstSample(s);
    } else if s.main.Sleeping? {
      SpawnFromSleep(s);
    }
  }

  /** The first n children are older than the shutdown. While the process lives no later one has been
      signalled; cleanup and stopChild deal with older ones, and there is at most one later. Once it has
      exited the later one has gone by itself or been sent both signals; when it was killed, none. */
  predicate LateInv(s: State, n: nat) {
    && s.shuttingDown && n <= |s.children| <= n + 1
    && (s.cleanup.CleanTerm? || s.cleanup.CleanKill? ==> s.cleanup.child < n)
    && (s.main.StopTerm? || s.main.StopKill? ==> s.main.child < n)
    && (|s.children| > n ==> !MaySpawn(s.main) && (if s.exit.Some? && s.exit.value.Exited? then Dismissed(s.children[n]) else Unsignalled(s.children[n])))
  }

  predicate Unsignalled(c: Child) {
    !c.termed && !c.killed
  }

  /** What the 'exit' handler leaves of a child that nobody signalled before. */
  predicate Dismissed(c: Child) {
    c.termed == c.killed == !c.exited
  }

  lemma StepLate(s: State, e: Event, n: nat)
    requires Tended(s) && LateInv(s, n) && Enabled(s, e)
    ensures LateInv(Apply(s, e), n)
  {
  }

  lemma {:induction false} RunLate(s: State, es: seq<Event>, n: nat)
    requires Tended(s) && LateInv(s, n) && Run(s, es)
    ensures LateInv(Exec(s, es), n)
    decreases |es|
  {
    if es == [] {
    } else {
      StepTended(s, es[0]);
      StepLate(s, es[0], n);
      RunLate(Apply(s, es[0]), es[1..], n);
    }
  }

  /** Over all runs: a child spawned after shutdown began is signalled by nobody while the process lives.
      Only its exit does that: then the child is sent both signals unless it has gone by itself. A signal
      without a handler leaves it untouched. */
  lemma LateChildIsLeftToExit(before: seq<Event>, after: seq<Event>)
    requires Run(Init, before) && !Exec(Init, before).shuttingDown && Exec(Init, before).exit.None?
    requires Run(Apply(Exec(Init, before), Signal), after)
    ensures (var n := |Exec(Init, before).children|;
             var s := Exec(Apply(Exec(Init, before), Signal), after);
             forall i :: n <= i < |s.children| ==>
               if s.exit.Some? && s.exit.value.Exited? then Dismissed(s.children[i]) else Unsignalled(s.children[i]))
  {
    var s0 := Exec(Init, before);
    RunTended(Init, before);
    StepTended(s0, Signal);
    RunLate(Apply(s0, Signal), after, |s0.children|);
  }

  /** Here is one that is stopped so. */
  lemma SpawnAfterShutdown()
    ensures var es := [ProbeAnswers(false), HealthReady, Sampled("a"), PollWakes, Sampled("b"), DebounceWakes,
                       Sampled("b"), Signal, ChildExits(0), StopSeesExit, CleanupSeesExit];
            && Run(Init, es)
            && Exec(Init, es).exit == Some(Exited(0))
            && Exec(Init, es).children == [Child(true, true, false), Child(false, true, true)]
  {
    FirstChange("a", "b", [Signal, ChildExits(0), StopSeesExit, CleanupSeesExit]);
    SignalDuringRestart("a", "b");
    assert [ProbeAnswers(false), HealthReady, Sampled("a"), PollWakes, Sampled("b"), DebounceWakes, Sampled("b")]
           + [Signal, ChildExits(0), StopSeesExit, CleanupSeesExit]
        == [ProbeAnswers(false), HealthReady, Sampled("a"), PollWakes, Sampled("b"), DebounceWakes,
            Sampled("b"), Signal, ChildExits(0), StopSeesExit, CleanupSeesExit];
  }

  lemma SignalDuringRestart(a: Fingerprint, b: Fingerprint)
    ensures var s0, es := AfterFirstChange(a, b), [Signal, ChildExits(0), StopSeesExit, CleanupSeesExit];
            && Run(s0, es)
            && Exec(s0, es).exit == Some(Exited(0))
            && Exec(s0, es).children == [Child(true, true, false), Child(false, true, true)]
  {
    var s0 := AfterFirstChange(a, b);
    var s1 := Apply(s0, Signal);
    var s2 := Apply(s1, ChildExits(0));
    var s3 := Apply(s2, StopSeesExit);
    var s4 := Apply(s3, CleanupSeesExit);
    assert Run(s4, []);
    ExecCons(s3, CleanupSeesExit, []);
    ExecCons(s2, StopSeesExit, [CleanupSeesExit]);
    ExecCons(s1, ChildExits(0), [StopSeesExit, CleanupSeesExit]);
    ExecCons(s0, Signal, [ChildExits(0), StopSeesExit, CleanupSeesExit]);
    assert [Signal] + ([ChildExits(0)] + ([StopSeesExit] + ([CleanupSeesExit] + [])))
        == [Signal, ChildExits(0), StopSeesExit, CleanupSeesExit];
  }

  /** The state of a fresh supervisor that has just noticed its first change. */
  function AfterFirstChange(a: Fingerprint, b: Fingerprint): State {
    State([Child(false, true, false)], Some(0), false, b, StopTerm(Change(a, b, b), 0), NotStarted, None,
          [Spawn(First, "")])
  }

  /** A fresh supervisor that watches its first child. */
  function Watching(a: Fingerprint): State {
    State([Child(false, false, false)], Some(0), false, a, Sleeping, NotStarted, None, [Spawn(First, "")])
  }

  lemma FirstStart(a: Fingerprint, rest: seq<Event>)
    requires Run(Watching(a), rest)
    ensures var es := [ProbeAnswers(false)] + ([HealthReady] + ([Sampled(a)] + rest));
            Run(Init, es) && Exec(Init, es) == Exec(Watching(a), rest)
  {
    var s1 := Apply(Init, ProbeAnswers(false));
    var s2 := Apply(s1, HealthReady);
    assert Apply(s2, Sampled(a)) == Watching(a);
    ExecCons(s2, Sampled(a), rest);
    ExecCons(s1, HealthReady, [Sampled(a)] + rest);
    ExecCons(Init, ProbeAnswers(false), [HealthReady] + ([Sampled(a)] + rest));
  }

  lemma NoticedChange(a: Fingerprint, b: Fingerprint, rest: seq<Event>)
    requires a != b && Run(AfterFirstChange(a, b), rest)
    ensures var es := [PollWakes] + ([Sampled(b)] + ([DebounceWakes] + ([Sampled(b)] + rest)));
            Run(Watching(a), es) && Exec(Watching(a), es) == Exec(AfterFirstChange(a, b), rest)
  {
    var s1 := Apply(Watching(a), PollWakes);
    var s2 := Apply(s1, Sampled(b));
    var s3 := Apply(s2, DebounceWakes);
    assert Apply(s3, Sampled(b)) == AfterFirstChange(a, b);
    ExecCons(s3, Sampled(b), rest);
    ExecCons(s2, DebounceWakes, [Sampled(b)] + rest);
    ExecCons(s1, Sampled(b), [DebounceWakes] + ([Sampled(b)] + rest));
    ExecCons(Watching(a), PollWakes, [Sampled(b)] + ([DebounceWakes] + ([Sampled(b)] + rest)));
  }

  lemma SevenInFront<T>(a: T, b: T, c: T, d: T, e: T, f: T, g: T, rest: seq<T>)
    ensures [a] + ([b] + ([c] + ([d] + ([e] + ([f] + ([g] + rest)))))) == [a, b, c, d, e, f, g] + rest
  {
    Associative([f], [g], rest);
    Associative([e], [f] + [g], rest);
    Associative([d], [e] + ([f] + [g]), rest);
    Associative([c], [d] + ([e] + ([f] + [g])), rest);
    Associative([b], [c] + ([d] + ([e] + ([f] + [g]))), rest);
    Associative([a], [b] + ([c] + ([d] + ([e] + ([f] + [g])))), rest);
    assert [a] + ([b] + ([c] + ([d] + ([e] + ([f] + [g]))))) == [a, b, c, d, e, f, g];
  }

  lemma FirstChange(a: Fingerprint, b: Fingerprint, rest: seq<Event>)
    requires a != b && Run(AfterFirstChange(a, b), rest)
    ensures var es := [ProbeAnswers(false), HealthReady, Sampled(a), PollWakes, Sampled(b), DebounceWakes, Sampled(b)] + rest;
            Run(Init, es) && Exec(Init, es) == Exec(AfterFirstChange(a, b), rest)
  {
    var noticed := [PollWakes] + ([Sampled(b)] + ([DebounceWakes] + ([Sampled(b)] + rest)));
    NoticedChange(a, b, rest);
    FirstStart(a, noticed);
    SevenInFront(ProbeAnswers(false), HealthReady, Sampled(a), PollWakes, Sampled(b), DebounceWakes, Sampled(b), rest);
  }

  // ----- debounced restarts

  function WhyOf(pc: MainPc): Option<Why> {
    if pc.StopTerm? || pc.StopKill? || pc.WaitHealth? then Some(pc.why) else None
  }

  predicate Debounced(why: Why) {
    why.Change? ==> why.first != why.before && why.second != why.before
  }

  /** Every restart for a change, decided or done, had two samples against the fingerprint recorded
      then, and the one recorded when the child is spawned is the second of them. */
  predicate DebounceInv(s: State) {
    && (forall k :: 0 <= k < |s.log| ==> Debounced(s.log[k].why) && RecordedBefore(s.log[k].why, s.log[k].recorded))
    && (WhyOf(s.main).Some? ==> Debounced(WhyOf(s.main).value) && RecordedBefore(WhyOf(s.main).value, s.last))
    && (s.main.Debouncing? || s.main.Resampling? ==> s.main.first != s.last)
    && (s.main.Probing? ==> s.main.why == First)
    && (s.main.SampleAfter? ==> !s.main.why.Change?)
  }

  predicate RecordedBefore(why: Why, recorded: Fingerprint) {
    why.Change? ==> recorded == why.second
  }

  lemma SampleDebounced(s: State, fp: Fingerprint)
    requires Tended(s) && DebounceInv(s) && Enabled(s, Sampled(fp))
    ensures DebounceInv(OnSample(s, fp))
  {
  }

  lemma StepDebounced(s: State, e: Event)
    requires Tended(s) && DebounceInv(s) && Enabled(s, e)
    ensures DebounceInv(Apply(s, e))
  {
    if e.Sampled? {
      SampleDebounced(s, e.fp);
    }
  }

  lemma {:induction false} RunDebounced(s: State, es: seq<Event>)
    requires Run(s, es) && Tended(s) && DebounceInv(s)
    ensures DebounceInv(Exec(s, es))
    decreases |es|
  {
    if es == [] {
    } else {
      StepTended(s, es[0]);
      StepDebounced(s, es[0]);
      RunDebounced(Apply(s, es[0]), es[1..]);
    }
  }

  /** Over whole runs: every restart for a source change was decided by two successive samples that
      both differ from the fingerprint recorded before, and the second of them is recorded before the
      new child is spawned, so a change during the restart is seen by the next poll. */
  lemma RestartsAreDebounced(es: seq<Event>)
    requires Run(Init, es)
    ensures forall spawn :: spawn in Exec(Init, es).log && spawn.why.Change? ==>
              && spawn.why.first != spawn.why.before
              && spawn.why.second != spawn.why.before
              && spawn.recorded == spawn.why.second
  {
    RunDebounced(Init, es);
  }

  /** The events that advance main through one poll. */
  predicate PollStep(e: Event) {
    e.PollWakes? || e.Sampled? || e.DebounceWakes?
  }

  function PollSteps(es: seq<Event>): nat {
    if es == [] then 0 else PollSteps(es[..|es| - 1]) + if PollStep(es[|es| - 1]) then 1 else 0
  }

  /** Every sample shows the tree in state f; no shutdown, no error, no crash of the child. */
  predicate Persistent(s: State, es: seq<Event>, f: Fingerprint) {
    forall e :: e in es ==>
      && (e.Sampled? ==> e.fp == f)
      && !e.Signal? && !e.OtherSignal? && !e.SampleThrows?
      && (e.ChildExits? ==> s.current != Some(e.child))
  }

  /** Where main stands after k steps of a poll that sees a persistent change. */
  predicate PollStage(s0: State, s: State, f: Fingerprint, k: nat) {
    && s.exit.None? && !s.shuttingDown && s.current == s0.current && |s.children| == |s0.children| && s.log == s0.log
    && s.current.Some? && s.current.value < |s.children| && !s.children[s.current.value].exited
    && (k <= 3 ==> s.last == s0.last)
    && (k == 0 ==> s.main == Sleeping)
    && (k == 1 ==> s.main == Sampling)
    && (k == 2 ==> s.main == Debouncing(f))
    && (k == 3 ==> s.main == Resampling(f))
    && (k == 4 ==> s.main == StopTerm(Change(s0.last, f, f), s0.current.value) && s.last == f)
  }

  lemma ExecSnoc(s: State, es: seq<Event>)
    requires Run(s, es) && es != []
    ensures var front, e := es[..|es| - 1], es[|es| - 1];
            Run(s, front) && Enabled(Exec(s, front), e) && Exec(s, es) == Apply(Exec(s, front), e)
    decreases |es|
  {
    if |es| == 1 {
      assert es[1..] == [] && es[..0] == [];
    } else {
      ExecSnoc(Apply(s, es[0]), es[1..]);
      assert es[1..][..|es| - 2] == es[..|es| - 1][1..];
    }
  }

  /** A tree that stays different from the recorded one causes a restart at the next poll: after the
      two wake-ups and two samples of that poll, whatever else happens in between, main is stopping
      the child for the change and has recorded the new fingerprint. Only a shutdown, an error or the
      crash branch can get in the way. */
  lemma {:induction false} PersistentChangeRestarts(s: State, es: seq<Event>, f: Fingerprint)
    requires Tended(s) && Run(s, es) && s.main.Sleeping? && s.exit.None? && !s.shuttingDown
    requires s.current.Some? && !s.children[s.current.value].exited
    requires f != s.last && Persistent(s, es, f) && PollSteps(es) <= 4
    requires PollSteps(es) == 4 ==> PollStep(es[|es| - 1])
    ensures PollStage(s, Exec(s, es), f, PollSteps(es))
    decreases |es|
  {
    if es == [] {
    } else {
      var front := es[..|es| - 1];
      ExecSnoc(s, es);
      assert forall e :: e in front ==> e in es;
      assert es[|es| - 1] in es;
      PersistentChangeRestarts(s, front, f);
      RunTended(s, front);
    }
  }

  /** The waits of stopChild that end. */
  predicate StopStep(e: Event) {
    e.StopSeesExit? || e.StopTimesOut?
  }

  function StopSteps(es: seq<Event>): nat {
    if es == [] then 0 else (if StopStep(es[0]) then 1 else 0) + StopSteps(es[1..])
  }

  function StopsLeft(pc: MainPc): nat {
    if pc.StopTerm? then 2 else if pc.StopKill? then 1 else 0
  }

  lemma {:induction false} LogGrows(s: State, es: seq<Event>)
    requires Run(s, es)
    ensures s.log <= Exec(s, es).log
    decreases |es|
  {
    if es == [] {
    } else {
      LogGrows(Apply(s, es[0]), es[1..]);
    }
  }

  /** What a step does while main is stopping the old child: it spawns the new one, has one wait less
      ahead, or leaves main where it is, unless the process ends. */
  lemma StepWhileStopping(s: State, e: Event)
    requires Tended(s) && Enabled(s, e) && StopsLeft(s.main) > 0 && Apply(s, e).exit.None?
    ensures (var s' := Apply(s, e);
             || s'.log == s.log + [Spawn(s.main.why, s.last)]
             || (&& s'.log == s.log && s'.last == s.last && StopsLeft(s'.main) > 0 && s'.main.why == s.main.why
                 && StopsLeft(s'.main) == StopsLeft(s.main) - if StopStep(e) then 1 else 0))
  {
  }

  /** While main is stopping the old child a wait can always end, and after at most two that did the new
      child is spawned for the reason it was decided for, whatever else happens, unless the process ends
      first. */
  lemma {:induction false} StopEndsInSpawn(s: State, es: seq<Event>)
    requires Tended(s) && Run(s, es) && Exec(s, es).exit.None? && 0 < StopsLeft(s.main) <= StopSteps(es)
    ensures s.log + [Spawn(s.main.why, s.last)] <= Exec(s, es).log
    ensures Enabled(s, StopSeesExit) || Enabled(s, StopTimesOut)
    decreases |es|
  {
    var s' := Apply(s, es[0]);
    StepTended(s, es[0]);
    StillOpen(s', es[1..]);
    StepWhileStopping(s, es[0]);
    if s'.log == s.log {
      StopEndsInSpawn(s', es[1..]);
    } else {
      LogGrows(s', es[1..]);
    }
  }

  /** Nothing happens after the end. */
  lemma StillOpen(s: State, es: seq<Event>)
    requires Run(s, es) && Exec(s, es).exit.None?
    ensures s.exit.None?
  {
  }

  /** So a tree that stays different gets its new child: after the poll and the two waits the child for
      the change is spawned, with the new fingerprint recorded, unless the process ends first. */
  lemma PersistentChangeSpawns(s: State, poll: seq<Event>, stop: seq<Event>, f: Fingerprint)
    requires Tended(s) && Run(s, poll) && s.main.Sleeping? && s.exit.None? && !s.shuttingDown
    requires s.current.Some? && !s.children[s.current.value].exited
    requires f != s.last && Persistent(s, poll, f) && PollSteps(poll) == 4 && PollStep(poll[|poll| - 1])
    requires Run(Exec(s, poll), stop) && StopSteps(stop) >= 2 && Exec(Exec(s, poll), stop).exit.None?
    ensures s.log + [Spawn(Change(s.last, f, f), f)] <= Exec(Exec(s, poll), stop).log
  {
    PersistentChangeRestarts(s, poll, f);
    RunTended(s, poll);
    StopEndsInSpawn(Exec(s, poll), stop);
  }

  // ----- what is recorded for a child that was started

  predicate Starting(pc: MainPc) {
    pc.WaitHealth? || pc.SampleAfter?
  }

  predicate AtLoopHead(pc: MainPc) {
    pc.Sleeping? || pc.Returned?
  }

  /** A run from a start under way to the first loop head after it. */
  predicate StartupRun(s: State, es: seq<Event>)
    decreases |es|
  {
    && Run(s, es)
    && if es == [] then AtLoopHead(s.main) else Starting(s.main) && StartupRun(Apply(s, es[0]), es[1..])
  }

  function FirstSample(es: seq<Event>): Option<Fingerprint> {
    if es == [] then None else if es[0].Sampled? then Some(es[0].fp) else FirstSample(es[1..])
  }

  /** The start under way is the one logged last, and what was recorded then still is. */
  predicate StartLogged(s: State) {
    Starting(s.main) ==>
      s.log != [] && s.log[|s.log| - 1] == Spawn(s.main.why, s.last) && (s.main.SampleAfter? ==> !s.main.why.Change?)
  }

  lemma StepLogged(s: State, e: Event)
    requires Tended(s) && StartLogged(s) && Enabled(s, e)
    ensures StartLogged(Apply(s, e))
  {
  }

  lemma {:induction false} RunLogged(s: State, es: seq<Event>)
    requires Run(s, es) && Tended(s) && StartLogged(s)
    ensures StartLogged(Exec(s, es))
    decreases |es|
  {
    if es == [] {
    } else {
      StepTended(s, es[0]);
      StepLogged(s, es[0]);
      RunLogged(Apply(s, es[0]), es[1..]);
    }
  }

  /** One step of a start: it goes on as it was, or comes to the loop head, with a sample unless the
      start was for a change. */
  lemma StepOfStart(s: State, e: Event)
    requires Tended(s) && Enabled(s, e) && Starting(s.main) && (s.main.SampleAfter? ==> !s.main.why.Change?)
    requires Apply(s, e).exit.None?
    ensures (var s' := Apply(s, e);
             if e.Sampled? then AtLoopHead(s'.main) && s'.last == e.fp && s.main.SampleAfter?
             else
               && s'.last == s.last
               && (AtLoopHead(s'.main) ==> s.main.why.Change?)
               && (Starting(s'.main) ==> s'.main.why == s.main.why && (s'.main.SampleAfter? ==> !s'.main.why.Change?)))
  {
  }

  lemma {:induction false} StartRecords(s: State, es: seq<Event>)
    requires Tended(s) && Starting(s.main) && (s.main.SampleAfter? ==> !s.main.why.Change?)
    requires StartupRun(s, es) && Exec(s, es).exit.None?
    ensures if s.main.why.Change? then FirstSample(es) == None && Exec(s, es).last == s.last
            else FirstSample(es) == Some(Exec(s, es).last)
    decreases |es|
  {
    var s', rest := Apply(s, es[0]), es[1..];
    StepTended(s, es[0]);
    StillOpen(s', rest);
    StepOfStart(s, es[0]);
    if rest != [] {
      StartRecords(s', rest);
    }
  }

  /** Over all runs, for the first start, a crash restart and a change alike: the fingerprint recorded at
      the first loop head after a spawn is the one recorded at the spawn exactly when the spawn was for
      a change, or the sample taken once the child was ready equals it. */
  lemma RecordedAcrossStartIff(before: seq<Event>, es: seq<Event>)
    requires Run(Init, before) && Starting(Exec(Init, before).main)
    requires StartupRun(Exec(Init, before), es) && Exec(Exec(Init, before), es).exit.None?
    ensures Exec(Init, before).log != []
    ensures (var s := Exec(Init, before);
             var spawn := s.log[|s.log| - 1];
             Exec(s, es).last == spawn.recorded <==> spawn.why.Change? || FirstSample(es) == Some(spawn.recorded))
  {
    var s := Exec(Init, before);
    RunTended(Init, before);
    RunLogged(Init, before);
    StartRecords(s, es);
  }

  /** Every sample shows the recorded state of the tree. */
  predicate Steady(es: seq<Event>, f: Fingerprint) {
    forall e :: e in es ==> e.Sampled? ==> e.fp == f
  }

  /** Main is not on the way to a restart for a change. */
  predicate NoChangeAhead(s: State) {
    && !s.main.Debouncing? && !s.main.Resampling?
    && (WhyOf(s.main).Some? ==> !WhyOf(s.main).value.Change?)
    && (s.main.Probing? || s.main.SampleAfter? ==> !s.main.why.Change?)
  }

  lemma StepSteady(s: State, e: Event)
    requires Tended(s) && Enabled(s, e) && NoChangeAhead(s) && (e.Sampled? ==> e.fp == s.last)
    ensures NoChangeAhead(Apply(s, e)) && Apply(s, e).last == s.last
    ensures Apply(s, e).log == s.log
         || exists why: Why :: !why.Change? && Apply(s, e).log == s.log + [Spawn(why, s.last)]
  {
    if Apply(s, e).log != s.log {
      var why := if e.PollWakes? then Crash else s.main.why;
      assert Apply(s, e).log == s.log + [Spawn(why, s.last)];
    }
  }

  /** What has been recorded as seen is never acted on: as long as the tree stays as recorded, no child
      is spawned for a change. */
  lemma {:induction false} RecordedIsNeverActedOn(s: State, es: seq<Event>)
    requires Tended(s) && Run(s, es) && NoChangeAhead(s) && Steady(es, s.last)
    ensures s.log <= Exec(s, es).log
    ensures forall k :: |s.log| <= k < |Exec(s, es).log| ==> !Exec(s, es).log[k].why.Change?
    decreases |es|
  {
    if es == [] {
    } else {
      assert es[0] in es && forall e :: e in es[1..] ==> e in es;
      StepTended(s, es[0]);
      StepSteady(s, es[0]);
      RecordedIsNeverActedOn(Apply(s, es[0]), es[1..]);
    }
  }

  /** So the first start misses whatever changed before its sample. */
  lemma FirstStartCanMissChange(f: Fingerprint, later: seq<Event>)
    requires Run(Watching(f), later) && Steady(later, f)
    ensures var es := [ProbeAnswers(false)] + ([HealthReady] + ([Sampled(f)] + later));
            && Run(Init, es)
            && forall k :: 1 <= k < |Exec(Init, es).log| ==> !Exec(Init, es).log[k].why.Change?
  {
    FirstStart(f, later);
    RecordedIsNeverActedOn(Watching(f), later);
  }

  /** And so does a crash restart: a change made before its sample is recorded as seen, and nothing that
      happens later is a restart for it. */
  lemma CrashRestartCanMissChange(s: State, f: Fingerprint, later: seq<Event>)
    requires Tended(s) && s.main.Sleeping? && s.exit.None? && !s.shuttingDown
    requires s.current.Some? && s.children[s.current.value].exited && f != s.last
    requires Run(AfterCrash(s, f), later) && Steady(later, f)
    ensures var es := [PollWakes] + ([HealthReady] + ([Sampled(f)] + later));
            && Run(s, es)
            && s.log + [Spawn(Crash, s.last)] <= Exec(s, es).log
            && forall k :: |s.log| < k < |Exec(s, es).log| ==> !Exec(s, es).log[k].why.Change?
  {
    var s1 := Apply(s, PollWakes);
    var s2 := Apply(s1, HealthReady);
    var s3 := Apply(s2, Sampled(f));
    assert s3 == AfterCrash(s, f);
    StepTended(s, PollWakes);
    StepTended(s1, HealthReady);
    StepTended(s2, Sampled(f));
    ExecCons(s2, Sampled(f), later);
    ExecCons(s1, HealthReady, [Sampled(f)] + later);
    ExecCons(s, PollWakes, [HealthReady] + ([Sampled(f)] + later));
    RecordedIsNeverActedOn(s3, later);
  }

  /** A supervisor whose crashed child was replaced, with f recorded once the new one was ready. */
  function AfterCrash(s: State, f: Fingerprint): State {
    s.(children := s.children + [Child(false, false, false)],
       current := Some(|s.children|),
       main := Sleeping,
       last := f,
       log := s.log + [Spawn(Crash, s.last)])
  }
}
