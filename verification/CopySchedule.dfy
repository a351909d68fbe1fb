/** Schedule independence: with the source's answers and the target's answers fixed per document and
    attempt, every interleaving of the copy workers ends like one sequential pass over `paths`. */
module CopySchedule {
  import opened Prelude
  import opened CopyMachine
  import opened CopyCounts

  datatype ReadAnswer = GotText(text: Text) | GotNull | GotError

  /** Whether a put took effect, and whether it reported success; success implies effect. */
  datatype PutAnswer = PutAnswer(applied: bool, resolved: bool)

  /** What would answer each attempt on one document. */
  datatype Plan = Plan(gets: seq<ReadAnswer>, puts: seq<PutAnswer>)

  predicate PlanOk(c: Config, plan: Plan) {
    && |plan.gets| == c.attempts && |plan.puts| == c.attempts
    && forall k :: 0 <= k < |plan.puts| && plan.puts[k].resolved ==> plan.puts[k].applied
  }

  predicate PlansOk(c: Config, plans: seq<Plan>) {
    |plans| == |c.paths| && forall i :: 0 <= i < |plans| ==> PlanOk(c, plans[i])
  }

  /** The event is what the plan says happens at this attempt. */
  predicate Follows(c: Config, plans: seq<Plan>, s: State, e: Event)
    requires WellFormed(c, s) && Enabled(s, e) && PlansOk(c, plans)
  {
    match e
    case ReadText(w, t) => ReadPlanned(c, plans, s.workers[w]) == GotText(t)
    case ReadNull(w) => ReadPlanned(c, plans, s.workers[w]) == GotNull
    case ReadError(w) => ReadPlanned(c, plans, s.workers[w]) == GotError
    case PutLands(w) => PutPlanned(c, plans, s.workers[w]).applied
    case PutResolves(w) => PutPlanned(c, plans, s.workers[w]).resolved
    case PutRejects(w) =>
      var put := PutPlanned(c, plans, s.workers[w]);
      !put.resolved && (put.applied ==> s.workers[w].landed)
    case _ => true
  }

  function ReadPlanned(c: Config, plans: seq<Plan>, pc: Pc): ReadAnswer
    requires PlansOk(c, plans) && PcOk(c, pc) && pc.Reading?
  {
    plans[pc.index].gets[pc.attempt - 1]
  }

  function PutPlanned(c: Config, plans: seq<Plan>, pc: Pc): PutAnswer
    requires PlansOk(c, plans) && PcOk(c, pc) && pc.Putting?
  {
    plans[pc.index].puts[pc.attempt - 1]
  }

  predicate FollowingRun(c: Config, plans: seq<Plan>, s: State, es: seq<Event>)
    requires PlansOk(c, plans)
    decreases |es|
  {
    && Run(c, s, es)
    && (es != [] ==> Follows(c, plans, s, es[0]) && FollowingRun(c, plans, Apply(c, s, es[0]), es[1..]))
  }

  // ----- one document after the other

  /** withRetry: the first answer that is not an error. */
  function FirstRead(gets: seq<ReadAnswer>): ReadAnswer {
    if gets == [] then GotError else if gets[0].GotError? then FirstRead(gets[1..]) else gets[0]
  }

  predicate Resolves(puts: seq<PutAnswer>) {
    exists k :: 0 <= k < |puts| && puts[k].resolved
  }

  predicate Lands(puts: seq<PutAnswer>) {
    exists k :: 0 <= k < |puts| && puts[k].applied
  }

  function FateOf(c: Config, i: nat, plan: Plan): Fate
    requires i < |c.paths|
  {
    match FirstRead(plan.gets)
    case GotText(t) =>
      if c.Skips(i, t) then Skipped(t)
      else if c.dryRun || Resolves(plan.puts) then Migrated(t)
      else Failed
    case _ => Failed
  }

  /** The text that document i's own puts leave in the target, if any. */
  function Effect(c: Config, i: nat, plan: Plan): Option<Text>
    requires i < |c.paths|
  {
    match FirstRead(plan.gets)
    case GotText(t) => if !c.Skips(i, t) && !c.dryRun && Lands(plan.puts) then Some(t) else None
    case _ => None
  }

  datatype Summary = Summary(
    target: map<Path, Text>,
    docs: map<Path, Entry>,
    processed: nat,
    migrated: nat,
    skipped: nat,
    bytes: nat,
    failed: bool)

  function SummaryOf(s: State): Summary {
    Summary(s.target, s.docs, s.processed, s.migrated, s.skipped, s.bytes, s.failed)
  }

  /** One document on its own. */
  function Process(c: Config, r: Summary, i: nat, plan: Plan): Summary
    requires i < |c.paths|
  {
    var p, written := c.paths[i], Effect(c, i, plan);
    var r' := if written.Some? then r.(target := r.target[p := written.value]) else r;
    match FateOf(c, i, plan)
    case Failed => r'.(failed := true)
    case Skipped(_) => r'.(processed := r.processed + 1, skipped := r.skipped + 1)
    case Migrated(t) =>
      r'.(docs := r.docs[p := c.EntryOf(t)], processed := r.processed + 1,
          migrated := r.migrated + 1, bytes := r.bytes + c.byteLength(t))
  }

  /** A single worker without concurrency: documents 0 to k - 1 in order. */
  function Pass(c: Config, plans: seq<Plan>, target: map<Path, Text>, k: nat): Summary
    requires PlansOk(c, plans) && k <= |c.paths|
  {
    if k == 0 then Summary(target, c.prior, 0, 0, 0, 0, false)
    else Process(c, Pass(c, plans, target, k - 1), k - 1, plans[k - 1])
  }

  // ----- the invariant

  /** What a worker's program counter says about the attempts behind it and about its document. */
  predicate PcFollows(c: Config, plan: Plan, before: map<Path, Text>, target: map<Path, Text>, pc: Pc)
    requires Working(pc) && PcOk(c, pc) && PlanOk(c, plan)
  {
    var p := c.paths[pc.index];
    match pc
    case Reading(_, k) =>
      Lookup(target, p) == Lookup(before, p) && FirstRead(plan.gets) == FirstRead(plan.gets[k - 1..])
    case ReadNap(_, k) =>
      Lookup(target, p) == Lookup(before, p) && FirstRead(plan.gets) == FirstRead(plan.gets[k..])
    case Putting(_, t, k, landed) =>
      && PutFollows(c, plan, pc.index, t, k - 1)
      && (landed ==> plan.puts[k - 1].applied)
      && Lookup(target, p) == if landed || Lands(plan.puts[..k - 1]) then Some(t) else Lookup(before, p)
    case PutNap(_, t, k) =>
      && PutFollows(c, plan, pc.index, t, k)
      && Lookup(target, p) == if Lands(plan.puts[..k]) then Some(t) else Lookup(before, p)
  }

  /** Text t was read for document i, it has to be written, and k puts have failed so far. */
  predicate PutFollows(c: Config, plan: Plan, i: nat, t: Text, k: nat)
    requires i < |c.paths| && k <= |plan.puts|
  {
    FirstRead(plan.gets) == GotText(t) && !c.Skips(i, t) && !c.dryRun && !Resolves(plan.puts[..k])
  }

  /** Where document i's own history leaves its path in the target. */
  function Final(c: Config, plans: seq<Plan>, before: map<Path, Text>, i: nat): Option<Text>
    requires PlansOk(c, plans) && i < |c.paths|
  {
    var written := Effect(c, i, plans[i]);
    if written.Some? then written else Lookup(before, c.paths[i])
  }

  ghost predicate ScheduleInv(c: Config, plans: seq<Plan>, before: map<Path, Text>, s: State)
    requires PlansOk(c, plans)
  {
    && WellFormed(c, s) && Claims(c, s)
    && (forall w :: 0 <= w < |s.workers| && Working(s.workers[w])
                    ==> PcFollows(c, plans[s.workers[w].index], before, s.target, s.workers[w]))
    && (forall i :: 0 <= i < |c.paths| && i in s.fates
                    ==> s.fates[i] == FateOf(c, i, plans[i]) && Lookup(s.target, c.paths[i]) == Final(c, plans, before, i))
    && (forall i :: s.nextIndex <= i < |c.paths| ==> Lookup(s.target, c.paths[i]) == Lookup(before, c.paths[i]))
    && (forall p :: p !in c.paths ==> Lookup(s.target, p) == Lookup(before, p))
    && s.docs == DocsAfter(c, s.fates, |c.paths|)
  }

  /** The manifest that a set of fates leads to, in document order. */
  function DocsAfter(c: Config, fates: map<nat, Fate>, k: nat): map<Path, Entry>
    requires k <= |c.paths|
  {
    if k == 0 then c.prior
    else
      var docs := DocsAfter(c, fates, k - 1);
      if k - 1 in fates && fates[k - 1].Migrated? then docs[c.paths[k - 1] := c.EntryOf(fates[k - 1].text)] else docs
  }

  lemma {:induction false} DocsAfterAdd(c: Config, fates: map<nat, Fate>, i: nat, f: Fate, k: nat)
    requires Distinct(c.paths) && i < |c.paths| && i !in fates && k <= |c.paths|
    ensures DocsAfter(c, fates[i := f], k)
         == if i < k && f.Migrated? then DocsAfter(c, fates, k)[c.paths[i] := c.EntryOf(f.text)] else DocsAfter(c, fates, k)
  {
    if k == 0 {
    } else {
      DocsAfterAdd(c, fates, i, f, k - 1);
      assert i < k - 1 ==> c.paths[i] != c.paths[k - 1];
    }
  }

  // ----- preservation

  /** Another document's worker neither moves this one nor touches its path. */
  lemma OthersUntouched(c: Config, plans: seq<Plan>, before: map<Path, Text>, s: State, w: nat, p: Path, target: map<Path, Text>)
    requires PlansOk(c, plans) && Distinct(c.paths) && ScheduleInv(c, plans, before, s)
    requires w < |s.workers| && Working(s.workers[w]) && p == c.paths[s.workers[w].index]
    requires forall q :: q != p ==> Lookup(target, q) == Lookup(s.target, q)
    ensures forall v :: 0 <= v < |s.workers| && v != w && Working(s.workers[v])
                        ==> PcFollows(c, plans[s.workers[v].index], before, target, s.workers[v])
    ensures forall i :: 0 <= i < |c.paths| && i in s.fates ==> Lookup(target, c.paths[i]) == Final(c, plans, before, i)
    ensures forall i :: s.nextIndex <= i < |c.paths| ==> Lookup(target, c.paths[i]) == Lookup(before, c.paths[i])
    ensures forall q :: q !in c.paths ==> Lookup(target, q) == Lookup(before, q)
  {
    HeldOnce(c, s, w, w);
    assert forall i :: 0 <= i < |c.paths| && i != s.workers[w].index ==> c.paths[i] != p;
    forall v | 0 <= v < |s.workers| && v != w && Working(s.workers[v])
      ensures PcFollows(c, plans[s.workers[v].index], before, target, s.workers[v])
    {
      HeldOnce(c, s, v, w);
      assert PcFollows(c, plans[s.workers[v].index], before, s.target, s.workers[v]);
    }
  }

  lemma ParkFollows(c: Config, plans: seq<Plan>, before: map<Path, Text>, s: State, e: Event, w: nat)
    requires PlansOk(c, plans) && Distinct(c.paths) && ScheduleInv(c, plans, before, s)
    requires Enabled(s, e) && !Settles(c, s, e) && !Flushes(e) && !e.Claim? && w == e.w
    requires var s' := Apply(c, s, e);
             && Working(s'.workers[w])
             && (forall q :: q != c.paths[s.workers[w].index] ==> Lookup(s'.target, q) == Lookup(s.target, q))
             && PcFollows(c, plans[s'.workers[w].index], before, s'.target, s'.workers[w])
    ensures ScheduleInv(c, plans, before, Apply(c, s, e))
  {
    StepClaims(c, s, e);
    QuietStep(c, s, e);
    OthersUntouched(c, plans, before, s, w, c.paths[s.workers[w].index], Apply(c, s, e).target);
  }

  lemma SettleFollows(c: Config, plans: seq<Plan>, before: map<Path, Text>, s: State, w: nat, f: Fate)
    requires PlansOk(c, plans) && Distinct(c.paths) && ScheduleInv(c, plans, before, s)
    requires w < |s.workers| && Working(s.workers[w])
    requires var i := s.workers[w].index;
             f == FateOf(c, i, plans[i]) && Lookup(s.target, c.paths[i]) == Final(c, plans, before, i)
    ensures WellFormed(c, Settle(c, s, w, f)) && ScheduleInv(c, plans, before, Settle(c, s, w, f))
  {
    var i := s.workers[w].index;
    SettleClaims(c, s, w, f);
    DocsAfterAdd(c, s.fates, i, f, |c.paths|);
    OthersUntouched(c, plans, before, s, w, c.paths[i], s.target);
  }

  /** The attempts still to come decide the outcome, as long as the ones behind all failed. */
  lemma {:induction false} FirstReadStep(gets: seq<ReadAnswer>, k: nat)
    requires k < |gets|
    ensures FirstRead(gets[k..]) == if gets[k].GotError? then FirstRead(gets[k + 1..]) else gets[k]
  {
    assert gets[k..][0] == gets[k] && gets[k..][1..] == gets[k + 1..];
  }

  lemma PutsStep(puts: seq<PutAnswer>, k: nat)
    requires k < |puts|
    ensures Resolves(puts[..k + 1]) <==> Resolves(puts[..k]) || puts[k].resolved
    ensures Lands(puts[..k + 1]) <==> Lands(puts[..k]) || puts[k].applied
    ensures puts[k].resolved ==> Resolves(puts)
    ensures puts[k].applied ==> Lands(puts)
  {
    assert puts[..k + 1] == puts[..k] + [puts[k]];
    var before, after := puts[..k], puts[..k + 1];
    if Resolves(before) {
      var j :| 0 <= j < |before| && before[j].resolved;
      assert after[j].resolved;
    }
    if Lands(before) {
      var j :| 0 <= j < |before| && before[j].applied;
      assert after[j].applied;
    }
    assert after[k] == puts[k];
    if Resolves(after) && !puts[k].resolved {
      var j :| 0 <= j < |after| && after[j].resolved;
      assert before[j].resolved;
    }
    if Lands(after) && !puts[k].applied {
      var j :| 0 <= j < |after| && after[j].applied;
      assert before[j].applied;
    }
  }

  lemma StepReads(c: Config, plans: seq<Plan>, before: map<Path, Text>, s: State, e: Event)
    requires PlansOk(c, plans) && Distinct(c.paths) && ScheduleInv(c, plans, before, s)
    requires Enabled(s, e) && Follows(c, plans, s, e)
    requires e.ReadText? || e.ReadNull? || e.ReadError?
    ensures ScheduleInv(c, plans, before, Apply(c, s, e))
  {
    var pc := s.workers[e.w];
    var plan := plans[pc.index];
    assert PcFollows(c, plan, before, s.target, pc);
    FirstReadStep(plan.gets, pc.attempt - 1);
    if Settles(c, s, e) {
      SettlingStep(c, s, e);
      if e.ReadError? {
        assert plan.gets[pc.attempt..] == [];
      }
      SettleFollows(c, plans, before, s, e.w, FateBy(c, s, e));
    } else {
      assert plan.puts[..0] == [];
      ParkFollows(c, plans, before, s, e, e.w);
    }
  }

  lemma StepPuts(c: Config, plans: seq<Plan>, before: map<Path, Text>, s: State, e: Event)
    requires PlansOk(c, plans) && Distinct(c.paths) && ScheduleInv(c, plans, before, s)
    requires Enabled(s, e) && Follows(c, plans, s, e)
    requires e.PutLands? || e.PutResolves? || e.PutRejects?
    ensures ScheduleInv(c, plans, before, Apply(c, s, e))
  {
    var pc := s.workers[e.w];
    var plan := plans[pc.index];
    assert PcFollows(c, plan, before, s.target, pc);
    PutsStep(plan.puts, pc.attempt - 1);
    if Settles(c, s, e) {
      SettlingStep(c, s, e);
      if e.PutRejects? {
        assert plan.puts[..pc.attempt] == plan.puts;
      }
      SettleFollows(c, plans, before, s, e.w, FateBy(c, s, e));
    } else {
      ParkFollows(c, plans, before, s, e, e.w);
    }
  }

  lemma StepWakes(c: Config, plans: seq<Plan>, before: map<Path, Text>, s: State, e: Event)
    requires PlansOk(c, plans) && Distinct(c.paths) && ScheduleInv(c, plans, before, s)
    requires Enabled(s, e) && e.Wake?
    ensures ScheduleInv(c, plans, before, Apply(c, s, e))
  {
    assert PcFollows(c, plans[s.workers[e.w].index], before, s.target, s.workers[e.w]);
    ParkFollows(c, plans, before, s, e, e.w);
  }

  lemma StepClaim(c: Config, plans: seq<Plan>, before: map<Path, Text>, s: State, w: nat)
    requires PlansOk(c, plans) && Distinct(c.paths) && ScheduleInv(c, plans, before, s)
    requires Enabled(s, Claim(w))
    ensures ScheduleInv(c, plans, before, Apply(c, s, Claim(w)))
  {
    var s' := Apply(c, s, Claim(w));
    StepClaims(c, s, Claim(w));
    forall v | 0 <= v < |s'.workers| && Working(s'.workers[v])
      ensures PcFollows(c, plans[s'.workers[v].index], before, s'.target, s'.workers[v])
    {
      if v == w {
        assert plans[s.nextIndex].gets[0..] == plans[s.nextIndex].gets;
      } else {
        assert PcFollows(c, plans[s.workers[v].index], before, s.target, s.workers[v]);
      }
    }
  }

  lemma StepFollows(c: Config, plans: seq<Plan>, before: map<Path, Text>, s: State, e: Event)
    requires PlansOk(c, plans) && Distinct(c.paths) && ScheduleInv(c, plans, before, s)
    requires Enabled(s, e) && Follows(c, plans, s, e)
    ensures ScheduleInv(c, plans, before, Apply(c, s, e))
  {
    match e
    case Claim(w) => StepClaim(c, plans, before, s, w);
    case ReadText(_, _) => StepReads(c, plans, before, s, e);
    case ReadNull(_) => StepReads(c, plans, before, s, e);
    case ReadError(_) => StepReads(c, plans, before, s, e);
    case Wake(_) => StepWakes(c, plans, before, s, e);
    case PutLands(_) => StepPuts(c, plans, before, s, e);
    case PutResolves(_) => StepPuts(c, plans, before, s, e);
    case PutRejects(_) => StepPuts(c, plans, before, s, e);
    case _ => StepClaims(c, s, e);
  }

  lemma {:induction false} RunFollows(c: Config, plans: seq<Plan>, before: map<Path, Text>, s: State, es: seq<Event>)
    requires PlansOk(c, plans) && Distinct(c.paths) && ScheduleInv(c, plans, before, s)
    requires FollowingRun(c, plans, s, es)
    ensures ScheduleInv(c, plans, before, Exec(c, s, es))
    decreases |es|
  {
    if es == [] {
    } else {
      StepFollows(c, plans, before, s, es[0]);
      RunFollows(c, plans, before, Apply(c, s, es[0]), es[1..]);
    }
  }

  // ----- the sequential pass computes the same thing

  lemma ProcessFields(c: Config, r: Summary, i: nat, plan: Plan)
    requires i < |c.paths|
    ensures var r', f, written := Process(c, r, i, plan), FateOf(c, i, plan), Effect(c, i, plan);
            && r'.target == (if written.Some? then r.target[c.paths[i] := written.value] else r.target)
            && r'.docs == (if f.Migrated? then r.docs[c.paths[i] := c.EntryOf(f.text)] else r.docs)
            && r'.migrated == r.migrated + IsMigrated(f)
            && r'.skipped == r.skipped + IsSkipped(f)
            && r'.bytes == r.bytes + BytesOf(c, f)
            && r'.processed == r.processed + IsMigrated(f) + IsSkipped(f)
            && r'.failed == (r.failed || f.Failed?)
  {
  }

  /** The target after the first k documents. */
  ghost predicate TargetUpTo(c: Config, plans: seq<Plan>, before: map<Path, Text>, t: map<Path, Text>, k: nat)
    requires PlansOk(c, plans)
  {
    && (forall i :: 0 <= i < k && i < |c.paths| ==> Lookup(t, c.paths[i]) == Final(c, plans, before, i))
    && (forall i :: k <= i < |c.paths| ==> Lookup(t, c.paths[i]) == Lookup(before, c.paths[i]))
    && (forall p :: p !in c.paths ==> Lookup(t, p) == Lookup(before, p))
  }

  lemma OneMoreTarget(c: Config, plans: seq<Plan>, before: map<Path, Text>, t: map<Path, Text>, t': map<Path, Text>, i: nat)
    requires PlansOk(c, plans) && Distinct(c.paths) && i < |c.paths| && TargetUpTo(c, plans, before, t, i)
    requires var written := Effect(c, i, plans[i]);
             t' == if written.Some? then t[c.paths[i] := written.value] else t
    ensures TargetUpTo(c, plans, before, t', i + 1)
  {
    TargetStep(c, Effect(c, i, plans[i]), t, t', i);
  }

  lemma {:induction false} PassTarget(c: Config, plans: seq<Plan>, before: map<Path, Text>, k: nat)
    requires PlansOk(c, plans) && Distinct(c.paths) && k <= |c.paths|
    ensures TargetUpTo(c, plans, before, Pass(c, plans, before, k).target, k)
  {
    if k == 0 {
    } else {
      var r := Pass(c, plans, before, k - 1);
      PassTarget(c, plans, before, k - 1);
      ProcessFields(c, r, k - 1, plans[k - 1]);
      OneMoreTarget(c, plans, before, r.target, Pass(c, plans, before, k).target, k - 1);
    }
  }

  /** Writing one document changes the lookup of no other. */
  lemma TargetStep(c: Config, written: Option<Text>, t: map<Path, Text>, t': map<Path, Text>, i: nat)
    requires Distinct(c.paths) && i < |c.paths|
    requires t' == if written.Some? then t[c.paths[i] := written.value] else t
    ensures Lookup(t', c.paths[i]) == if written.Some? then written else Lookup(t, c.paths[i])
    ensures forall j :: 0 <= j < |c.paths| && j != i ==> Lookup(t', c.paths[j]) == Lookup(t, c.paths[j])
    ensures forall p :: p !in c.paths ==> Lookup(t', p) == Lookup(t, p)
  {
    assert forall j :: 0 <= j < |c.paths| && j != i ==> c.paths[j] != c.paths[i];
  }

  /** Manifest and counters are what the fates of the first k documents say. */
  predicate RecordUpTo(c: Config, fates: map<nat, Fate>, r: Summary, k: nat)
    requires k <= |c.paths|
  {
    && r.docs == DocsAfter(c, fates, k)
    && r.migrated == SumOver(fates, IsMigrated, k)
    && r.skipped == SumOver(fates, IsSkipped, k)
    && r.bytes == SumOver(fates, Bytes(c), k)
    && r.processed == r.migrated + r.skipped
    && (r.failed <==> SumOver(fates, IsFailed, k) > 0)
  }

  lemma OneMoreRecord(c: Config, fates: map<nat, Fate>, r: Summary, i: nat, plan: Plan)
    requires i < |c.paths| && i in fates && fates[i] == FateOf(c, i, plan) && RecordUpTo(c, fates, r, i)
    ensures RecordUpTo(c, fates, Process(c, r, i, plan), i + 1)
  {
    ProcessFields(c, r, i, plan);
  }

  lemma {:induction false} PassRecord(c: Config, plans: seq<Plan>, before: map<Path, Text>, fates: map<nat, Fate>, k: nat)
    requires PlansOk(c, plans) && k <= |c.paths|
    requires forall i :: 0 <= i < |c.paths| ==> i in fates && fates[i] == FateOf(c, i, plans[i])
    ensures RecordUpTo(c, fates, Pass(c, plans, before, k), k)
  {
    if k == 0 {
    } else {
      PassRecord(c, plans, before, fates, k - 1);
      OneMoreRecord(c, fates, Pass(c, plans, before, k - 1), k - 1, plans[k - 1]);
    }
  }

  lemma SameLookups(t: map<Path, Text>, u: map<Path, Text>)
    requires forall p :: Lookup(t, p) == Lookup(u, p)
    ensures t == u
  {
    forall p
      ensures p in t <==> p in u
      ensures p in t ==> t[p] == u[p]
    {
      assert Lookup(t, p) == Lookup(u, p);
    }
  }

  lemma InitSchedule(c: Config, plans: seq<Plan>, workers: nat, before: map<Path, Text>, disk: Disk)
    requires PlansOk(c, plans) && c.Valid()
    ensures ScheduleInv(c, plans, before, Init(c, workers, before, disk))
  {
    InitClaims(c, workers, before, disk);
    DocsAfterInit(c, |c.paths|);
  }

  lemma SettledTarget(c: Config, plans: seq<Plan>, before: map<Path, Text>, s: State)
    requires PlansOk(c, plans) && Distinct(c.paths) && ScheduleInv(c, plans, before, s)
    requires forall i: nat :: i in s.fates <==> i < |c.paths|
    ensures s.target == Pass(c, plans, before, |c.paths|).target
  {
    PassTarget(c, plans, before, |c.paths|);
    var t := Pass(c, plans, before, |c.paths|).target;
    forall p
      ensures Lookup(s.target, p) == Lookup(t, p)
    {
      if p in c.paths {
        var i :| 0 <= i < |c.paths| && c.paths[i] == p;
        assert i in s.fates;
      }
    }
    SameLookups(s.target, t);
  }

  /** A state in which every document has had its fate is the end of the sequential pass. */
  lemma SettledIsThePass(c: Config, plans: seq<Plan>, before: map<Path, Text>, s: State)
    requires PlansOk(c, plans) && Distinct(c.paths) && ScheduleInv(c, plans, before, s)
    requires Counted(c, s) && forall i: nat :: i in s.fates <==> i < |c.paths|
    ensures SummaryOf(s) == Pass(c, plans, before, |c.paths|)
  {
    PassRecord(c, plans, before, s.fates, |c.paths|);
    SettledTarget(c, plans, before, s);
  }

  /** Every complete interleaving of any number of workers ends with the same target, manifest and
      counters as one sequential pass. */
  lemma EveryScheduleIsThePass(c: Config, plans: seq<Plan>, workers: nat, before: map<Path, Text>, disk: Disk, es: seq<Event>)
    requires PlansOk(c, plans) && Distinct(c.paths) && workers > 0
    requires FollowingRun(c, plans, Init(c, workers, before, disk), es)
    requires AllDone(Exec(c, Init(c, workers, before, disk), es))
    ensures SummaryOf(Exec(c, Init(c, workers, before, disk), es)) == Pass(c, plans, before, |c.paths|)
  {
    var s0 := Init(c, workers, before, disk);
    InitSchedule(c, plans, workers, before, disk);
    RunFollows(c, plans, before, s0, es);
    Conservation(c, workers, before, disk, es);
    InitClaims(c, workers, before, disk);
    InitCounted(c, workers, before, disk);
    RunCounted(c, s0, es);
    SettledIsThePass(c, plans, before, Exec(c, s0, es));
  }

  lemma {:induction false} DocsAfterInit(c: Config, k: nat)
    requires k <= |c.paths|
    ensures DocsAfter(c, map[], k) == c.prior
  {
    if k == 0 {
    } else {
      DocsAfterInit(c, k - 1);
    }
  }
}
