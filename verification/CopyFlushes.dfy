/** The serialised manifest writes: `state.writeChain = state.writeChain.then(writeManifest)`. */
module CopyFlushes {
  import opened Prelude
  import opened CopyMachine
  import opened CopyCounts

  /** What the chain leaves in the manifest file, given what was there before the run. */
  function DiskAfter(before: Disk, jobs: seq<Job>): Disk {
    if jobs == [] then before
    else
      var earlier := DiskAfter(before, jobs[..|jobs| - 1]);
      match jobs[|jobs| - 1]
      case Queued => earlier
      case Writing(_, torn) => if torn then Torn else earlier
      case Rejected(_, torn) => if torn then Torn else earlier
      case Written(snapshot) => Whole(snapshot)
  }

  /** Every document that was processed is in the manifest, and nothing ever leaves it. */
  ghost predicate DocsCover(c: Config, s: State) {
    && c.prior.Keys <= s.docs.Keys
    && (forall i :: 0 <= i < |c.paths| && i in s.fates && !s.fates[i].Failed? ==> c.paths[i] in s.docs)
  }

  ghost predicate Serialised(s: State) {
    && (forall i, j :: 0 <= i < j < |s.flushes| && !s.flushes[j].Queued? ==> s.flushes[i].Written?)
    && (forall i, j :: 0 <= i < j < |s.flushes| && !s.flushes[j].Queued? && s.flushes[i].Written?
                       ==> s.flushes[i].snapshot.Keys <= s.flushes[j].snapshot.Keys)
    && (forall j :: 0 <= j < |s.flushes| && !s.flushes[j].Queued? ==> s.flushes[j].snapshot.Keys <= s.docs.Keys)
  }

  ghost predicate FlushInv(c: Config, s: State, before: Disk) {
    DocsCover(c, s) && Serialised(s) && s.disk == DiskAfter(before, s.flushes)
  }

  lemma {:induction false} DiskAfterQueued(before: Disk, jobs: seq<Job>, j: nat)
    requires j < |jobs| && forall i :: j < i < |jobs| ==> jobs[i].Queued?
    ensures DiskAfter(before, jobs) == DiskAfter(before, jobs[..j + 1])
  {
    if j == |jobs| - 1 {
      assert jobs[..j + 1] == jobs;
    } else {
      assert jobs[..|jobs| - 1][..j + 1] == jobs[..j + 1];
      DiskAfterQueued(before, jobs[..|jobs| - 1], j);
    }
  }

  /** The state of the file is decided by the one job that is running or ran last. */
  lemma DiskAfterJob(before: Disk, jobs: seq<Job>, j: nat)
    requires j < |jobs| && forall i :: j < i < |jobs| ==> jobs[i].Queued?
    ensures DiskAfter(before, jobs) ==
            match jobs[j] {
              case Queued => DiskAfter(before, jobs[..j])
              case Writing(_, torn) => if torn then Torn else DiskAfter(before, jobs[..j])
              case Rejected(_, torn) => if torn then Torn else DiskAfter(before, jobs[..j])
              case Written(snapshot) => Whole(snapshot)
            }
  {
    DiskAfterQueued(before, jobs, j);
    assert jobs[..j + 1][..j] == jobs[..j];
  }

  lemma FlushStep(c: Config, s: State, e: Event, before: Disk)
    requires WellFormed(c, s) && Enabled(s, e) && FlushInv(c, s, before)
    requires Flushes(e)
    ensures FlushInv(c, Apply(c, s, e), before)
  {
    var s', j := Apply(c, s, e), e.job;
    assert forall i :: j < i < |s.flushes| ==> s.flushes[i].Queued?;
    assert s'.flushes[..j] == s.flushes[..j];
    if e.FlushStarts? && j > 0 {
      assert s.flushes[j - 1].Written?;
    }
    DiskAfterJob(before, s.flushes, j);
    DiskAfterJob(before, s'.flushes, j);
  }

  lemma SettleCovers(c: Config, s: State, w: nat, fate: Fate)
    requires WellFormed(c, s) && DocsCover(c, s)
    requires w < |s.workers| && Working(s.workers[w])
    requires fate.Skipped? ==> c.Skips(s.workers[w].index, fate.text)
    ensures DocsCover(c, Settle(c, s, w, fate)) && s.docs.Keys <= Settle(c, s, w, fate).docs.Keys
  {
  }

  /** A write that only joins the queue changes neither the order nor the file. */
  lemma SerialisedGrows(s: State, s': State)
    requires Serialised(s) && s.docs.Keys <= s'.docs.Keys
    requires s'.flushes == s.flushes || s'.flushes == s.flushes + [Queued]
    ensures Serialised(s')
  {
  }

  lemma QueuedKeepsDisk(before: Disk, jobs: seq<Job>)
    ensures DiskAfter(before, jobs + [Queued]) == DiskAfter(before, jobs)
  {
    assert (jobs + [Queued])[..|jobs|] == jobs;
  }

  lemma SettleStep(c: Config, s: State, w: nat, fate: Fate, before: Disk)
    requires WellFormed(c, s) && FlushInv(c, s, before)
    requires w < |s.workers| && Working(s.workers[w])
    requires fate.Skipped? ==> c.Skips(s.workers[w].index, fate.text)
    ensures FlushInv(c, Settle(c, s, w, fate), before)
  {
    var s' := Settle(c, s, w, fate);
    SettleCovers(c, s, w, fate);
    SerialisedGrows(s, s');
    QueuedKeepsDisk(before, s.flushes);
  }

  lemma QuietFlushes(c: Config, s: State, s': State, before: Disk)
    requires FlushInv(c, s, before)
    requires s'.docs == s.docs && s'.fates == s.fates && s'.flushes == s.flushes && s'.disk == s.disk
    ensures FlushInv(c, s', before)
  {
  }

  lemma StepFlushes(c: Config, s: State, e: Event, before: Disk)
    requires WellFormed(c, s) && Enabled(s, e) && FlushInv(c, s, before)
    ensures FlushInv(c, Apply(c, s, e), before)
  {
    if Flushes(e) {
      FlushStep(c, s, e, before);
    } else if Settles(c, s, e) {
      SettlingStep(c, s, e);
      SettleStep(c, s, e.w, FateBy(c, s, e), before);
    } else {
      QuietStep(c, s, e);
      QuietFlushes(c, s, Apply(c, s, e), before);
    }
  }

  lemma {:induction false} RunFlushes(c: Config, s: State, es: seq<Event>, before: Disk)
    requires Run(c, s, es) && FlushInv(c, s, before)
    ensures FlushInv(c, Exec(c, s, es), before)
    decreases |es|
  {
    if es == [] {
    } else {
      StepFlushes(c, s, es[0], before);
      RunFlushes(c, Apply(c, s, es[0]), es[1..], before);
    }
  }

  /** The manifests completely written to disk by a run, oldest first. */
  function DiskHistory(c: Config, s: State, es: seq<Event>): seq<map<Path, Entry>>
    requires Run(c, s, es)
    decreases |es|
  {
    if es == [] then []
    else WrittenBy(s, es[0]) + DiskHistory(c, Apply(c, s, es[0]), es[1..])
  }

  /** The snapshots of the completed prefix of the chain. */
  function Completed(jobs: seq<Job>): seq<map<Path, Entry>> {
    if jobs == [] || !jobs[0].Written? then [] else [jobs[0].snapshot] + Completed(jobs[1..])
  }

  lemma {:induction false} CompletedPrefix(jobs: seq<Job>, k: nat)
    requires k <= |jobs| && (forall i :: 0 <= i < k ==> jobs[i].Written?) && (k < |jobs| ==> !jobs[k].Written?)
    ensures |Completed(jobs)| == k && forall i :: 0 <= i < k ==> Completed(jobs)[i] == jobs[i].snapshot
  {
    if k == 0 {
    } else {
      CompletedPrefix(jobs[1..], k - 1);
      assert forall i :: 0 < i < k ==> jobs[i] == jobs[1..][i - 1];
    }
  }

  /** The length of the completed prefix. */
  lemma {:induction false} CompletedCount(jobs: seq<Job>) returns (k: nat)
    ensures k <= |jobs| && (forall i :: 0 <= i < k ==> jobs[i].Written?) && (k < |jobs| ==> !jobs[k].Written?)
  {
    if jobs == [] || !jobs[0].Written? {
      k := 0;
    } else {
      k := CompletedCount(jobs[1..]);
      k := k + 1;
    }
  }

  /** A longer or later chain with the same first unwritten link has the same completed prefix. */
  lemma SameCompleted(jobs: seq<Job>, jobs': seq<Job>, k: nat)
    requires k <= |jobs| <= |jobs'| && jobs[..k] == jobs'[..k]
    requires forall i :: 0 <= i < k ==> jobs[i].Written?
    requires (k < |jobs| ==> !jobs[k].Written?) && (k < |jobs'| ==> !jobs'[k].Written?)
    ensures Completed(jobs') == Completed(jobs)
  {
    assert forall i :: 0 <= i < k ==> jobs[i] == jobs[..k][i] && jobs'[i] == jobs'[..k][i];
    CompletedPrefix(jobs, k);
    CompletedPrefix(jobs', k);
  }

  /** A write that ends adds its snapshot to the completed prefix. */
  lemma EndCompletes(c: Config, s: State, j: nat)
    requires WellFormed(c, s) && Enabled(s, FlushEnds(j)) && Serialised(s)
    ensures Completed(Apply(c, s, FlushEnds(j)).flushes) == Completed(s.flushes) + [s.flushes[j].snapshot]
  {
    var jobs, jobs' := s.flushes, Apply(c, s, FlushEnds(j)).flushes;
    assert forall i :: 0 <= i < j ==> jobs[i].Written? && jobs'[i] == jobs[i];
    CompletedPrefix(jobs, j);
    CompletedPrefix(jobs', j + 1);
  }

  /** No other event does. */
  lemma OthersComplete(c: Config, s: State, e: Event)
    requires WellFormed(c, s) && Enabled(s, e) && Serialised(s) && !e.FlushEnds?
    ensures Completed(Apply(c, s, e).flushes) == Completed(s.flushes)
  {
    var jobs, jobs' := s.flushes, Apply(c, s, e).flushes;
    var k := CompletedCount(jobs);
    if Flushes(e) {
      assert k <= e.job;
      SameCompleted(jobs, jobs', k);
    } else if Settles(c, s, e) {
      SettlingStep(c, s, e);
      assert jobs' == jobs || jobs' == jobs + [Queued];
      SameCompleted(jobs, jobs', k);
    } else {
      QuietStep(c, s, e);
    }
  }

  /** What one event adds to the manifests on disk. */
  function WrittenBy(s: State, e: Event): seq<map<Path, Entry>>
    requires Enabled(s, e)
  {
    if e.FlushEnds? then [s.flushes[e.job].snapshot] else []
  }

  lemma StepCompleted(c: Config, s: State, e: Event)
    requires WellFormed(c, s) && Enabled(s, e) && Serialised(s)
    ensures Completed(Apply(c, s, e).flushes) == Completed(s.flushes) + WrittenBy(s, e)
  {
    if e.FlushEnds? {
      EndCompletes(c, s, e.job);
    } else {
      OthersComplete(c, s, e);
    }
  }

  lemma {:induction false} HistoryIsCompleted(c: Config, s: State, es: seq<Event>, before: Disk)
    requires Run(c, s, es) && FlushInv(c, s, before)
    ensures Completed(Exec(c, s, es).flushes) == Completed(s.flushes) + DiskHistory(c, s, es)
    decreases |es|
  {
    if es == [] {
    } else {
      var s1 := Apply(c, s, es[0]);
      StepFlushes(c, s, es[0], before);
      StepCompleted(c, s, es[0]);
      HistoryIsCompleted(c, s1, es[1..], before);
      Associative(Completed(s.flushes), WrittenBy(s, es[0]), DiskHistory(c, s1, es[1..]));
    }
  }

  lemma InitFlushes(c: Config, workers: nat, target: map<Path, Text>, disk: Disk)
    ensures FlushInv(c, Init(c, workers, target, disk), disk)
  {
  }

  /** In every reachable state at most one manifest write is under way, it is the oldest one not yet
      written, and the file holds the last snapshot that was completely written, the file from
      before the run when there is none, or half a manifest while a write is under way or after
      it was rejected. */
  lemma WritesNeverOverlap(c: Config, workers: nat, target: map<Path, Text>, disk: Disk, es: seq<Event>)
    requires Run(c, Init(c, workers, target, disk), es)
    ensures var s := Exec(c, Init(c, workers, target, disk), es);
            && (forall i, j :: 0 <= i < j < |s.flushes| && !s.flushes[j].Queued? ==> s.flushes[i].Written?)
            && s.disk == DiskAfter(disk, s.flushes)
            && (s.disk == Torn && disk != Torn ==>
                  exists j :: 0 <= j < |s.flushes| && (s.flushes[j].Writing? || s.flushes[j].Rejected?))
  {
    InitFlushes(c, workers, target, disk);
    RunFlushes(c, Init(c, workers, target, disk), es, disk);
    var s := Exec(c, Init(c, workers, target, disk), es);
    if s.disk == Torn && disk != Torn {
      TornMeansUnfinished(disk, s.flushes);
    }
  }

  lemma {:induction false} TornMeansUnfinished(before: Disk, jobs: seq<Job>)
    requires DiskAfter(before, jobs) == Torn && before != Torn
    ensures exists j :: 0 <= j < |jobs| && (jobs[j].Writing? || jobs[j].Rejected?)
  {
    var n := |jobs| - 1;
    if jobs[n].Writing? || jobs[n].Rejected? {
    } else {
      TornMeansUnfinished(before, jobs[..n]);
      var j :| 0 <= j < n && (jobs[..n][j].Writing? || jobs[..n][j].Rejected?);
      assert jobs[j].Writing? || jobs[j].Rejected?;
    }
  }

  /** Of any two manifests a run leaves on disk, the later one lists every path of the earlier. */
  lemma OnDiskManifestsGrow(c: Config, workers: nat, target: map<Path, Text>, disk: Disk, es: seq<Event>)
    requires Run(c, Init(c, workers, target, disk), es)
    ensures var h := DiskHistory(c, Init(c, workers, target, disk), es);
            forall i, j :: 0 <= i < j < |h| ==> h[i].Keys <= h[j].Keys
  {
    var s0 := Init(c, workers, target, disk);
    InitFlushes(c, workers, target, disk);
    RunFlushes(c, s0, es, disk);
    HistoryIsCompleted(c, s0, es, disk);
    var jobs := Exec(c, s0, es).flushes;
    var k := CompletedCount(jobs);
    CompletedPrefix(jobs, k);
    var h := DiskHistory(c, s0, es);
    assert h == Completed(jobs);
    forall i, j | 0 <= i < j < |h|
      ensures h[i].Keys <= h[j].Keys
    {
      assert h[i] == jobs[i].snapshot && h[j] == jobs[j].snapshot;
    }
  }

  /** Once the chain has resolved, exactly processed / 500 manifests were written, and the manifest
      that main writes last lists every processed path and everything any earlier write listed. */
  lemma FinalWriteIsComplete(c: Config, workers: nat, target: map<Path, Text>, disk: Disk, es: seq<Event>)
    requires Run(c, Init(c, workers, target, disk), es)
    requires ChainResolved(Exec(c, Init(c, workers, target, disk), es))
    ensures var s := Exec(c, Init(c, workers, target, disk), es);
            var h := DiskHistory(c, Init(c, workers, target, disk), es);
            && |h| == s.processed / 500
            && (forall j :: 0 <= j < |h| ==> h[j].Keys <= s.docs.Keys)
            && c.prior.Keys <= s.docs.Keys
            && (forall i :: 0 <= i < |c.paths| && i in s.fates && !s.fates[i].Failed? ==> c.paths[i] in s.docs)
  {
    var s0 := Init(c, workers, target, disk);
    InitFlushes(c, workers, target, disk);
    RunFlushes(c, s0, es, disk);
    CountersAlwaysAgree(c, workers, target, disk, es);
    HistoryIsCompleted(c, s0, es, disk);
    var s := Exec(c, s0, es);
    CompletedPrefix(s.flushes, |s.flushes|);
    assert DiskHistory(c, s0, es) == Completed(s.flushes);
  }

  // ----- what is in a manifest on disk

  /** Job j began with this snapshot and carries it to the end. */
  predicate Carries(s: State, j: nat, snapshot: map<Path, Entry>) {
    j < |s.flushes| && !s.flushes[j].Queued? && s.flushes[j].snapshot == snapshot
  }

  lemma StepCarries(c: Config, s: State, e: Event, j: nat, snapshot: map<Path, Entry>)
    requires WellFormed(c, s) && Enabled(s, e) && Carries(s, j, snapshot)
    ensures Carries(Apply(c, s, e), j, snapshot)
    ensures e == FlushEnds(j) ==> Apply(c, s, e).disk == Whole(snapshot)
  {
    if Settles(c, s, e) {
      SettlingStep(c, s, e);
    } else if !Flushes(e) {
      QuietStep(c, s, e);
    }
  }

  lemma {:induction false} RunCarries(c: Config, s: State, es: seq<Event>, j: nat, snapshot: map<Path, Entry>)
    requires Run(c, s, es) && Carries(s, j, snapshot)
    ensures Carries(Exec(c, s, es), j, snapshot)
    decreases |es|
  {
    if es == [] {
    } else {
      StepCarries(c, s, es[0], j, snapshot);
      RunCarries(c, Apply(c, s, es[0]), es[1..], j, snapshot);
    }
  }

  /** The file that a manifest write leaves is the whole manifest as it was when the write began, with
      every document processed by then, whatever happens in between. */
  lemma ManifestOnDiskIsWhole(c: Config, workers: nat, target: map<Path, Text>, disk: Disk, before: seq<Event>, j: nat,
                              between: seq<Event>)
    requires Run(c, Init(c, workers, target, disk), before)
    requires Enabled(Exec(c, Init(c, workers, target, disk), before), FlushStarts(j))
    requires Run(c, Apply(c, Exec(c, Init(c, workers, target, disk), before), FlushStarts(j)), between)
    requires Enabled(Exec(c, Apply(c, Exec(c, Init(c, workers, target, disk), before), FlushStarts(j)), between), FlushEnds(j))
    ensures var began := Exec(c, Init(c, workers, target, disk), before);
            var ends := Exec(c, Apply(c, began, FlushStarts(j)), between);
            && Apply(c, ends, FlushEnds(j)).disk == Whole(began.docs)
            && (forall i :: 0 <= i < |c.paths| && i in began.fates && !began.fates[i].Failed? ==> c.paths[i] in began.docs)
  {
    var s0 := Init(c, workers, target, disk);
    var began := Exec(c, s0, before);
    InitFlushes(c, workers, target, disk);
    RunFlushes(c, s0, before, disk);
    var s := Apply(c, began, FlushStarts(j));
    RunCarries(c, s, between, j, began.docs);
    StepCarries(c, Exec(c, s, between), FlushEnds(j), j, began.docs);
  }
}
