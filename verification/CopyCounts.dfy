/** Exactly-once claiming, conservation of documents, and termination of the copy phase. */
module CopyCounts {
  import opened Prelude
  import opened WorkerPool
  import opened CopyMachine

  function IsMigrated(f: Fate): nat { if f.Migrated? then 1 else 0 }

  function IsSkipped(f: Fate): nat { if f.Skipped? then 1 else 0 }

  function IsFailed(f: Fate): nat { if f.Failed? then 1 else 0 }

  function BytesOf(c: Config, f: Fate): nat {
    if f.Migrated? then c.byteLength(f.text) else 0
  }

  function Bytes(c: Config): Fate -> nat {
    (f: Fate) => BytesOf(c, f)
  }

  /** The counters of `state` say exactly what the history says. */
  ghost predicate Counted(c: Config, s: State) {
    var n := |c.paths|;
    && s.migrated == SumOver(s.fates, IsMigrated, n)
    && s.skipped == SumOver(s.fates, IsSkipped, n)
    && s.bytes == SumOver(s.fates, Bytes(c), n)
    && (s.failed <==> SumOver(s.fates, IsFailed, n) > 0)
    && s.processed == s.migrated + s.skipped
    && |s.flushes| == s.processed / MANIFEST_FLUSH_INTERVAL
  }

  lemma InitCounted(c: Config, workers: nat, target: map<Path, Text>, disk: Disk)
    ensures Counted(c, Init(c, workers, target, disk))
  {
    var s := Init(c, workers, target, disk);
    SumOverZero(s.fates, IsMigrated, |c.paths|);
    SumOverZero(s.fates, IsSkipped, |c.paths|);
    SumOverZero(s.fates, IsFailed, |c.paths|);
    SumOverZero(s.fates, Bytes(c), |c.paths|);
  }

  lemma SettleCounted(c: Config, s: State, w: nat, f: Fate)
    requires Counted(c, s) && w < |s.workers| && Working(s.workers[w]) && PcOk(c, s.workers[w])
    requires s.workers[w].index !in s.fates
    ensures Counted(c, Settle(c, s, w, f))
  {
    var i, n := s.workers[w].index, |c.paths|;
    SumOverAdd(s.fates, i, f, IsMigrated, n);
    SumOverAdd(s.fates, i, f, IsSkipped, n);
    SumOverAdd(s.fates, i, f, IsFailed, n);
    SumOverAdd(s.fates, i, f, Bytes(c), n);
  }

  lemma StepCounted(c: Config, s: State, e: Event)
    requires WellFormed(c, s) && Enabled(s, e) && Claims(c, s) && Counted(c, s)
    ensures Counted(c, Apply(c, s, e))
  {
    if Settles(c, s, e) {
      StepClaims(c, s, e);
      SettlingStep(c, s, e);
      SettleCounted(c, s, e.w, FateBy(c, s, e));
    }
  }

  lemma {:induction false} RunCounted(c: Config, s: State, es: seq<Event>)
    requires Run(c, s, es) && Claims(c, s) && Counted(c, s)
    ensures Claims(c, Exec(c, s, es)) && Counted(c, Exec(c, s, es))
    decreases |es|
  {
    if es == [] {
    } else {
      StepClaims(c, s, es[0]);
      StepCounted(c, s, es[0]);
      RunCounted(c, Apply(c, s, es[0]), es[1..]);
    }
  }

  /** In every reachable state, processed = migrated + skipped, and exactly one manifest write was
      queued for every 500 documents processed. */
  lemma CountersAlwaysAgree(c: Config, workers: nat, target: map<Path, Text>, disk: Disk, es: seq<Event>)
    requires Run(c, Init(c, workers, target, disk), es)
    ensures var s := Exec(c, Init(c, workers, target, disk), es);
            && Claims(c, s)
            && s.processed == s.migrated + s.skipped
            && |s.flushes| == s.processed / 500
            && (s.failed <==> exists i :: 0 <= i < |c.paths| && i in s.fates && s.fates[i].Failed?)
  {
    var s0 := Init(c, workers, target, disk);
    InitClaims(c, workers, target, disk);
    InitCounted(c, workers, target, disk);
    RunCounted(c, s0, es);
    SumOverZero(Exec(c, s0, es).fates, IsFailed, |c.paths|);
  }

  /** When every worker has returned: the counter ends at n plus the worker count, every document
      was claimed and ended exactly once, no document was lost or counted twice, and `bytes` is the
      total size of what was migrated. */
  lemma Conservation(c: Config, workers: nat, target: map<Path, Text>, disk: Disk, es: seq<Event>)
    requires workers > 0 && Run(c, Init(c, workers, target, disk), es)
    requires AllDone(Exec(c, Init(c, workers, target, disk), es))
    ensures var s := Exec(c, Init(c, workers, target, disk), es);
            && s.nextIndex == |c.paths| + workers
            && (forall i: nat :: i in s.fates <==> i < |c.paths|)
            && s.migrated + s.skipped + SumOver(s.fates, IsFailed, |c.paths|) == |c.paths|
            && s.processed == s.migrated + s.skipped
            && s.bytes == SumOver(s.fates, Bytes(c), |c.paths|)
  {
    var s0 := Init(c, workers, target, disk);
    var s := Exec(c, s0, es);
    InitClaims(c, workers, target, disk);
    InitCounted(c, workers, target, disk);
    RunCounted(c, s0, es);
    FinishedPool(|c.paths|, PoolOf(s));
    assert forall i: nat :: i in s.fates <==> i in PoolOf(s).settled;
    SumOverPartition(s.fates, IsMigrated, IsSkipped, IsFailed, |c.paths|);
  }

  // ----- termination

  /** How many more steps one worker can take without claiming another document. A settled
      document may queue a manifest write, which is worth three more steps. */
  function Rank(c: Config, pc: Pc): nat
    requires PcOk(c, pc)
  {
    match pc
    case Done => 0
    case Top => 1
    case PutNap(_, _, k) => 4 + 3 * (c.attempts - k)
    case Putting(_, _, k, landed) => 4 + 3 * (c.attempts - k) + if landed then 1 else 2
    case ReadNap(_, k) => 3 + 3 * c.attempts + 2 * (c.attempts - k)
    case Reading(_, k) => 4 + 3 * c.attempts + 2 * (c.attempts - k)
  }

  function RankSum(c: Config, pcs: seq<Pc>): nat
    requires forall w :: 0 <= w < |pcs| ==> PcOk(c, pcs[w])
  {
    if pcs == [] then 0 else RankSum(c, pcs[..|pcs| - 1]) + Rank(c, pcs[|pcs| - 1])
  }

  function JobRank(j: Job): nat {
    match j
    case Queued => 3
    case Writing(_, torn) => if torn then 1 else 2
    case _ => 0
  }

  function JobSum(jobs: seq<Job>): nat {
    if jobs == [] then 0 else JobSum(jobs[..|jobs| - 1]) + JobRank(jobs[|jobs| - 1])
  }

  /** A bound on the length of every run that starts in s. */
  function Fuel(c: Config, s: State): nat
    requires WellFormed(c, s)
  {
    var unclaimed := if s.nextIndex < |c.paths| then |c.paths| - s.nextIndex else 0;
    RankSum(c, s.workers) + JobSum(s.flushes) + unclaimed * (2 + 5 * c.attempts)
  }

  lemma {:induction false} RankSumUpdate(c: Config, pcs: seq<Pc>, w: nat, pc: Pc)
    requires w < |pcs| && PcOk(c, pc) && forall v :: 0 <= v < |pcs| ==> PcOk(c, pcs[v])
    ensures RankSum(c, pcs[w := pc]) == RankSum(c, pcs) - Rank(c, pcs[w]) + Rank(c, pc)
  {
    var n := |pcs| - 1;
    if w == n {
      assert pcs[w := pc][..n] == pcs[..n];
    } else {
      assert pcs[w := pc][..n] == pcs[..n][w := pc];
      RankSumUpdate(c, pcs[..n], w, pc);
    }
  }

  lemma {:induction false} JobSumUpdate(jobs: seq<Job>, j: nat, job: Job)
    requires j < |jobs|
    ensures JobSum(jobs[j := job]) == JobSum(jobs) - JobRank(jobs[j]) + JobRank(job)
  {
    var n := |jobs| - 1;
    if j == n {
      assert jobs[j := job][..n] == jobs[..n];
    } else {
      assert jobs[j := job][..n] == jobs[..n][j := job];
      JobSumUpdate(jobs[..n], j, job);
    }
  }

  lemma ParkBurns(c: Config, s: State, w: nat, pc: Pc)
    requires WellFormed(c, s) && w < |s.workers| && PcOk(c, pc)
    requires Rank(c, pc) < Rank(c, s.workers[w])
    ensures WellFormed(c, Park(s, w, pc)) && Fuel(c, Park(s, w, pc)) < Fuel(c, s)
  {
    RankSumUpdate(c, s.workers, w, pc);
  }

  lemma SettleBurns(c: Config, s: State, w: nat, fate: Fate)
    requires WellFormed(c, s) && w < |s.workers| && Working(s.workers[w])
    ensures WellFormed(c, Settle(c, s, w, fate)) && Fuel(c, Settle(c, s, w, fate)) < Fuel(c, s)
  {
    var s' := Settle(c, s, w, fate);
    RankSumUpdate(c, s.workers, w, Top);
    assert Rank(c, s.workers[w]) >= 5;
    assert s'.flushes == s.flushes || (s'.flushes == s.flushes + [Queued] && s'.flushes[..|s.flushes|] == s.flushes);
  }

  lemma ClaimBurns(c: Config, s: State, w: nat)
    requires WellFormed(c, s) && Enabled(s, Claim(w))
    ensures Fuel(c, Apply(c, s, Claim(w))) < Fuel(c, s)
  {
    var s' := Apply(c, s, Claim(w));
    RankSumUpdate(c, s.workers, w, s'.workers[w]);
    if s.nextIndex < |c.paths| {
      var left, m := |c.paths| - s.nextIndex, 2 + 5 * c.attempts;
      assert left * m == (left - 1) * m + m;
    }
  }

  /** Every step uses up fuel. */
  lemma StepBurns(c: Config, s: State, e: Event)
    requires WellFormed(c, s) && Enabled(s, e)
    ensures Fuel(c, Apply(c, s, e)) < Fuel(c, s)
  {
    var s' := Apply(c, s, e);
    if e.FlushStarts? || e.FlushTears? || e.FlushEnds? || e.FlushRejects? {
      JobSumUpdate(s.flushes, e.job, s'.flushes[e.job]);
    } else if e.Claim? {
      ClaimBurns(c, s, e.w);
    } else if Settles(c, s, e) {
      SettlingStep(c, s, e);
      SettleBurns(c, s, e.w, FateBy(c, s, e));
    } else {
      ParkBurns(c, s, e.w, s'.workers[e.w]);
    }
  }

  /** No run is longer than the fuel it starts with: copying always terminates, for any number of
      workers, any schedule and any failures. */
  lemma {:induction false} RunsAreBounded(c: Config, s: State, es: seq<Event>)
    requires Run(c, s, es)
    ensures |es| + Fuel(c, Exec(c, s, es)) <= Fuel(c, s)
    decreases |es|
  {
    if es == [] {
    } else {
      StepBurns(c, s, es[0]);
      RunsAreBounded(c, Apply(c, s, es[0]), es[1..]);
    }
  }

  /** A run that cannot be continued has finished: every worker returned, and the write chain was
      written out or broke at a rejected write. Nothing ever deadlocks. */
  lemma StuckMeansFinished(c: Config, s: State)
    requires WellFormed(c, s)
    requires forall e :: !Enabled(s, e)
    ensures AllDone(s)
    ensures ChainResolved(s) || exists j :: 0 <= j < |s.flushes| && s.flushes[j].Rejected?
  {
    forall w | 0 <= w < |s.workers|
      ensures s.workers[w].Done?
    {
      assert !Enabled(s, Claim(w)) && !Enabled(s, ReadError(w)) && !Enabled(s, Wake(w)) && !Enabled(s, PutRejects(w));
    }
    if !ChainResolved(s) {
      FirstUnwritten(s.flushes);
      var j :| 0 <= j < |s.flushes| && !s.flushes[j].Written? && (j == 0 || s.flushes[j - 1].Written?);
      assert !Enabled(s, FlushStarts(j)) && !Enabled(s, FlushTears(j)) && !Enabled(s, FlushEnds(j));
    }
  }

  lemma {:induction false} FirstUnwritten(jobs: seq<Job>)
    requires exists j :: 0 <= j < |jobs| && !jobs[j].Written?
    ensures exists j :: 0 <= j < |jobs| && !jobs[j].Written? && (j == 0 || jobs[j - 1].Written?)
  {
    var n := |jobs| - 1;
    if exists j :: 0 <= j < n && !jobs[j].Written? {
      var k :| 0 <= k < n && !jobs[k].Written?;
      assert !jobs[..n][k].Written?;
      FirstUnwritten(jobs[..n]);
      var j :| 0 <= j < n && !jobs[..n][j].Written? && (j == 0 || jobs[..n][j - 1].Written?);
      assert !jobs[j].Written? && (j == 0 || jobs[j - 1].Written?);
    } else {
      assert !jobs[n].Written? && (n == 0 || jobs[n - 1].Written?);
    }
  }
}
