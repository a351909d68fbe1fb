/** What becomes of each document, in plain terms: when it is skipped, when it fails, and what a dry run
    or a run over an unchanged source writes. */
module CopyOutcomes {
  import opened Prelude
  import opened CopyMachine
  import opened CopyCounts
  import opened CopySchedule
  import CopyCrash

  /** The prior manifest has the hash and the size of text t for document i. */
  predicate Unchanged(c: Config, i: nat, t: Text)
    requires i < |c.paths|
  {
    && c.resume
    && c.paths[i] in c.prior
    && c.prior[c.paths[i]].size == c.byteLength(t)
    && c.prior[c.paths[i]].sha256 == c.sha256(t)
  }

  predicate FateFits(c: Config, i: nat, f: Fate)
    requires i < |c.paths|
  {
    && (f.Skipped? ==> Unchanged(c, i, f.text))
    && (f.Migrated? ==> !Unchanged(c, i, f.text))
  }

  predicate PcFits(c: Config, pc: Pc)
    requires PcOk(c, pc)
  {
    pc.Putting? || pc.PutNap? ==> !Unchanged(c, pc.index, pc.text) && !c.dryRun
  }

  ghost predicate OutcomeInv(c: Config, s: State) {
    && WellFormed(c, s)
    && (forall i :: 0 <= i < |c.paths| && i in s.fates ==> FateFits(c, i, s.fates[i]))
    && (forall w :: 0 <= w < |s.workers| ==> PcFits(c, s.workers[w]))
  }

  lemma SettlingFits(c: Config, s: State, e: Event)
    requires WellFormed(c, s) && Enabled(s, e) && Settles(c, s, e) && PcFits(c, s.workers[e.w])
    ensures FateFits(c, s.workers[e.w].index, FateBy(c, s, e))
  {
  }

  lemma WorkerFits(c: Config, s: State, e: Event)
    requires WellFormed(c, s) && Enabled(s, e) && !Settles(c, s, e) && !Flushes(e) && PcFits(c, s.workers[e.w])
    ensures PcFits(c, Apply(c, s, e).workers[e.w])
    ensures forall v :: 0 <= v < |s.workers| && v != e.w ==> Apply(c, s, e).workers[v] == s.workers[v]
  {
  }

  lemma StepOutcome(c: Config, s: State, e: Event)
    requires OutcomeInv(c, s) && Enabled(s, e)
    ensures OutcomeInv(c, Apply(c, s, e))
  {
    if Flushes(e) {
      assert Apply(c, s, e).workers == s.workers && Apply(c, s, e).fates == s.fates;
    } else if Settles(c, s, e) {
      SettlingFits(c, s, e);
      SettlingStep(c, s, e);
    } else {
      QuietStep(c, s, e);
      WorkerFits(c, s, e);
    }
  }

  lemma {:induction false} RunOutcome(c: Config, s: State, es: seq<Event>)
    requires OutcomeInv(c, s) && Run(c, s, es)
    ensures OutcomeInv(c, Exec(c, s, es))
    decreases |es|
  {
    if es == [] {
    } else {
      StepOutcome(c, s, es[0]);
      RunOutcome(c, Apply(c, s, es[0]), es[1..]);
    }
  }

  /** In every run a document that does not fail is skipped exactly when it is resumed and the prior
      manifest has the hash and the size of the text read for it. */
  lemma SkippedIff(c: Config, workers: nat, target: map<Path, Text>, disk: Disk, es: seq<Event>)
    requires Run(c, Init(c, workers, target, disk), es)
    ensures var s := Exec(c, Init(c, workers, target, disk), es);
            forall i :: 0 <= i < |c.paths| && i in s.fates && !s.fates[i].Failed? ==>
              (s.fates[i].Skipped? <==> Unchanged(c, i, s.fates[i].text))
  {
    RunOutcome(c, Init(c, workers, target, disk), es);
    var s := Exec(c, Init(c, workers, target, disk), es);
    assert forall i :: 0 <= i < |c.paths| && i in s.fates ==> FateFits(c, i, s.fates[i]);
  }

  // ----- runs that write nothing

  predicate NoPuts(s: State) {
    forall w :: 0 <= w < |s.workers| ==> !s.workers[w].Putting? && !s.workers[w].PutNap?
  }

  lemma StepDry(c: Config, s: State, e: Event)
    requires WellFormed(c, s) && Enabled(s, e) && NoPuts(s)
    requires e.ReadText? ==> c.dryRun || c.Skips(s.workers[e.w].index, e.text)
    ensures NoPuts(Apply(c, s, e)) && Apply(c, s, e).target == s.target
  {
    if Flushes(e) {
      assert Apply(c, s, e).workers == s.workers;
    } else {
      assert !s.workers[e.w].Putting? && !s.workers[e.w].PutNap?;
    }
  }

  lemma {:induction false} DryRun(c: Config, s: State, es: seq<Event>)
    requires Run(c, s, es) && NoPuts(s) && c.dryRun
    ensures Exec(c, s, es).target == s.target
    decreases |es|
  {
    if es == [] {
    } else {
      StepDry(c, s, es[0]);
      DryRun(c, Apply(c, s, es[0]), es[1..]);
    }
  }

  /** A dry run leaves the target as it was. */
  lemma DryRunWritesNothing(c: Config, workers: nat, target: map<Path, Text>, disk: Disk, es: seq<Event>)
    requires Run(c, Init(c, workers, target, disk), es) && c.dryRun
    ensures Exec(c, Init(c, workers, target, disk), es).target == target
  {
    DryRun(c, Init(c, workers, target, disk), es);
  }

  /** The prior manifest describes the source as it is. */
  ghost predicate Primed(c: Config, source: map<Path, Text>) {
    forall i :: 0 <= i < |c.paths| && c.paths[i] in source ==> Unchanged(c, i, source[c.paths[i]])
  }

  lemma PrimedSkips(c: Config, source: map<Path, Text>, s: State, e: Event)
    requires WellFormed(c, s) && Enabled(s, e) && Primed(c, source) && CopyCrash.FixedRead(c, source, s, e) && e.ReadText?
    ensures c.Skips(s.workers[e.w].index, e.text)
  {
    var i := s.workers[e.w].index;
    assert Unchanged(c, i, source[c.paths[i]]);
  }

  predicate NoneMigrated(s: State) {
    forall i :: i in s.fates ==> !s.fates[i].Migrated?
  }

  lemma StepPrimed(c: Config, source: map<Path, Text>, s: State, e: Event)
    requires WellFormed(c, s) && Enabled(s, e) && Primed(c, source) && CopyCrash.FixedRead(c, source, s, e)
    requires NoPuts(s) && NoneMigrated(s)
    ensures NoPuts(Apply(c, s, e)) && NoneMigrated(Apply(c, s, e)) && Apply(c, s, e).target == s.target
  {
    if e.ReadText? {
      PrimedSkips(c, source, s, e);
    }
    StepDry(c, s, e);
    if Settles(c, s, e) {
      assert !s.workers[e.w].Putting?;
      SettlingStep(c, s, e);
    } else if !Flushes(e) {
      QuietStep(c, s, e);
    }
  }

  /** A run whose manifest describes an unchanged source migrates nothing and writes nothing. */
  lemma {:induction false} PrimedRun(c: Config, source: map<Path, Text>, s: State, es: seq<Event>)
    requires CopyCrash.FixedRun(c, source, s, es) && Primed(c, source) && NoPuts(s) && NoneMigrated(s)
    ensures NoneMigrated(Exec(c, s, es)) && Exec(c, s, es).target == s.target
    decreases |es|
  {
    if es == [] {
    } else {
      StepPrimed(c, source, s, es[0]);
      PrimedRun(c, source, Apply(c, s, es[0]), es[1..]);
    }
  }

  // ----- fates by the answers

  /** The first answer that is not an error is text t. */
  predicate Reads(gets: seq<ReadAnswer>, t: Text) {
    exists k :: 0 <= k < |gets| && gets[k] == GotText(t) && forall m :: 0 <= m < k ==> gets[m].GotError?
  }

  lemma {:induction false} FirstReadIff(gets: seq<ReadAnswer>, t: Text)
    ensures FirstRead(gets) == GotText(t) <==> Reads(gets, t)
  {
    if gets == [] {
    } else if gets[0].GotError? {
      FirstReadIff(gets[1..], t);
      if Reads(gets[1..], t) {
        var k :| 0 <= k < |gets[1..]| && gets[1..][k] == GotText(t) && forall m :: 0 <= m < k ==> gets[1..][m].GotError?;
        assert forall m :: 0 <= m < k + 1 ==> m == 0 || gets[m] == gets[1..][m - 1];
        assert gets[k + 1] == GotText(t);
      }
      if Reads(gets, t) {
        var k :| 0 <= k < |gets| && gets[k] == GotText(t) && forall m :: 0 <= m < k ==> gets[m].GotError?;
        assert gets[1..][k - 1] == GotText(t) && forall m :: 0 <= m < k - 1 ==> gets[1..][m] == gets[m + 1];
      }
    }
  }

  /** Text t, once read for document i, ends it without failure. */
  predicate Succeeds(c: Config, i: nat, plan: Plan, t: Text)
    requires i < |c.paths|
  {
    Unchanged(c, i, t) || c.dryRun || exists m :: 0 <= m < |plan.puts| && plan.puts[m].resolved
  }

  lemma FateIff(c: Config, i: nat, plan: Plan)
    requires i < |c.paths|
    ensures FateOf(c, i, plan).Failed? <==> forall t :: Reads(plan.gets, t) ==> !Succeeds(c, i, plan, t)
    ensures !FateOf(c, i, plan).Failed? ==> Reads(plan.gets, FateOf(c, i, plan).text)
  {
    forall t
      ensures FirstRead(plan.gets) == GotText(t) <==> Reads(plan.gets, t)
    {
      FirstReadIff(plan.gets, t);
    }
    if FirstRead(plan.gets).GotText? {
      assert Reads(plan.gets, FirstRead(plan.gets).text);
      assert Succeeds(c, i, plan, FirstRead(plan.gets).text) <==> !FateOf(c, i, plan).Failed?;
    }
  }

  /** With the answers fixed per document and attempt, every complete interleaving gives each document
      this fate: it fails exactly when no attempt reads a text, a null is read before one, or the text
      has to be written and no put reports success; otherwise its text is the first that was read. */
  lemma FatesIff(c: Config, plans: seq<Plan>, workers: nat, before: map<Path, Text>, disk: Disk, es: seq<Event>)
    requires PlansOk(c, plans) && Distinct(c.paths) && workers > 0
    requires FollowingRun(c, plans, Init(c, workers, before, disk), es)
    requires AllDone(Exec(c, Init(c, workers, before, disk), es))
    ensures var s := Exec(c, Init(c, workers, before, disk), es);
            forall i :: 0 <= i < |c.paths| ==>
              && i in s.fates
              && (s.fates[i].Failed? <==> forall t :: Reads(plans[i].gets, t) ==> !Succeeds(c, i, plans[i], t))
              && (!s.fates[i].Failed? ==> Reads(plans[i].gets, s.fates[i].text))
  {
    var s0 := Init(c, workers, before, disk);
    InitSchedule(c, plans, workers, before, disk);
    RunFollows(c, plans, before, s0, es);
    Conservation(c, workers, before, disk, es);
    var s := Exec(c, s0, es);
    forall i | 0 <= i < |c.paths|
      ensures i in s.fates && s.fates[i] == FateOf(c, i, plans[i])
      ensures FateOf(c, i, plans[i]).Failed? <==> forall t :: Reads(plans[i].gets, t) ==> !Succeeds(c, i, plans[i], t)
      ensures !FateOf(c, i, plans[i]).Failed? ==> Reads(plans[i].gets, FateOf(c, i, plans[i]).text)
    {
      FateIff(c, i, plans[i]);
    }
  }
}
