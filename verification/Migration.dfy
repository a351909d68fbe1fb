/** The two worker pools of scripts/migrate-database.mjs as objects that update their fields in place,
    each proved to take exactly the steps of its step system. */
module Migration {
  import opened Prelude
  import opened CopyMachine
  import MigrateMain
  import V = VerifyMachine

  /** Math.max(1, Math.min(concurrency, paths.length || 1)) */
  function WorkerCount(concurrency: nat, n: nat): (k: nat)
    ensures 1 <= k && (k <= n || k == 1) && (k <= concurrency || k == 1)
    ensures n > 0 && concurrency > 0 ==> k == n || k == concurrency
  {
    if n == 0 || concurrency < 1 then 1 else Min(concurrency, n)
  }

  /** `state`, `manifest.docs`, the target and the manifest file, shared by all copy workers. */
  class CopyRun {
    const config: Config
    var nextIndex: nat
    var processed: nat
    var migrated: nat
    var skipped: nat
    var bytes: nat
    var failed: bool
    var docs: map<Path, Entry>
    var target: map<Path, Text>
    var workers: seq<Pc>
    var writeChain: seq<Job>
    var disk: Disk
    ghost var fates: map<nat, Fate>

    ghost function View(): State
      reads this
    {
      State(nextIndex, processed, migrated, skipped, bytes, failed, docs, target, workers, writeChain, disk, fates)
    }

    constructor (config: Config, concurrency: nat, target: map<Path, Text>, disk: Disk)
      ensures this.config == config
      ensures View() == Init(config, WorkerCount(concurrency, |config.paths|), target, disk)
    {
      this.config := config;
      nextIndex, processed, migrated, skipped, bytes, failed := 0, 0, 0, 0, 0, false;
      docs, this.target, this.disk := config.prior, target, disk;
      workers, writeChain := seq(WorkerCount(concurrency, |config.paths|), _ => Top), [];
      fates := map[];
    }

    /** `let index = state.nextIndex++`, and the first read of the document it names. */
    method ClaimNext(w: nat)
      requires WellFormed(config, View()) && Enabled(View(), Claim(w))
      modifies this
      ensures View() == Apply(config, old(View()), Claim(w))
    {
      var index := nextIndex;
      nextIndex := nextIndex + 1;
      if index >= |config.paths| {
        workers := workers[w := Done];
      } else {
        workers := workers[w := Reading(index, 1)];
      }
    }

    /** The end of the loop body: count the document and maybe queue a manifest write. */
    method Processed()
      modifies this`processed, this`writeChain
      ensures View() == CountProcessed(old(View()))
    {
      processed := processed + 1;
      if processed % MANIFEST_FLUSH_INTERVAL == 0 {
        writeChain := writeChain + [Queued];
      }
    }

    method RecordMigrated(w: nat, text: Text)
      requires WellFormed(config, View()) && w < |workers| && Working(workers[w])
      modifies this
      ensures View() == Settle(config, old(View()), w, Migrated(text))
    {
      var index := workers[w].index;
      docs := docs[config.paths[index] := config.EntryOf(text)];
      migrated := migrated + 1;
      bytes := bytes + config.byteLength(text);
      workers, fates := workers[w := Top], fates[index := Migrated(text)];
      Processed();
    }

    method RecordSkipped(w: nat, text: Text)
      requires WellFormed(config, View()) && w < |workers| && Working(workers[w])
      modifies this
      ensures View() == Settle(config, old(View()), w, Skipped(text))
    {
      skipped := skipped + 1;
      workers, fates := workers[w := Top], fates[workers[w].index := Skipped(text)];
      Processed();
    }

    /** The catch block. */
    method RecordFailed(w: nat)
      requires WellFormed(config, View()) && w < |workers| && Working(workers[w])
      modifies this
      ensures View() == Settle(config, old(View()), w, Failed)
    {
      failed := true;
      workers, fates := workers[w := Top], fates[workers[w].index := Failed];
    }

    /** A read settled: with a text, with null, or with an error. */
    method OnRead(w: nat, e: Event)
      requires e.ReadText? || e.ReadNull? || e.ReadError?
      requires e.w == w && WellFormed(config, View()) && Enabled(View(), e)
      modifies this
      ensures View() == Apply(config, old(View()), e)
    {
      var pc := workers[w];
      if e.ReadError? && pc.attempt < config.attempts {
        workers := workers[w := ReadNap(pc.index, pc.attempt)];
      } else if !e.ReadText? {
        RecordFailed(w);
      } else if config.Skips(pc.index, e.text) {
        RecordSkipped(w, e.text);
      } else if config.dryRun {
        RecordMigrated(w, e.text);
      } else {
        workers := workers[w := Putting(pc.index, e.text, 1, false)];
      }
    }

    /** The wait between two attempts is over. */
    method OnWake(w: nat)
      requires WellFormed(config, View()) && Enabled(View(), Wake(w))
      modifies this
      ensures View() == Apply(config, old(View()), Wake(w))
    {
      var pc := workers[w];
      if pc.ReadNap? {
        workers := workers[w := Reading(pc.index, pc.attempt + 1)];
      } else {
        workers := workers[w := Putting(pc.index, pc.text, pc.attempt + 1, false)];
      }
    }

    /** A put took effect, succeeded, or failed. */
    method OnPut(w: nat, e: Event)
      requires e.PutLands? || e.PutResolves? || e.PutRejects?
      requires e.w == w && WellFormed(config, View()) && Enabled(View(), e)
      modifies this
      ensures View() == Apply(config, old(View()), e)
    {
      var pc := workers[w];
      if e.PutLands? {
        target := target[config.paths[pc.index] := pc.text];
        workers := workers[w := Putting(pc.index, pc.text, pc.attempt, true)];
      } else if e.PutResolves? {
        RecordMigrated(w, pc.text);
      } else if pc.attempt < config.attempts {
        workers := workers[w := PutNap(pc.index, pc.text, pc.attempt)];
      } else {
        RecordFailed(w);
      }
    }

    /** One link of the write chain starts, truncates the file, completes or is rejected. */
    method OnFlush(j: nat, e: Event)
      requires Flushes(e) && e.job == j && WellFormed(config, View()) && Enabled(View(), e)
      modifies this
      ensures View() == Apply(config, old(View()), e)
    {
      if e.FlushStarts? {
        writeChain := writeChain[j := Writing(docs, false)];
        return;
      }
      var snapshot := writeChain[j].snapshot;
      if e.FlushTears? {
        writeChain, disk := writeChain[j := Writing(snapshot, true)], Torn;
      } else if e.FlushEnds? {
        writeChain, disk := writeChain[j := Written(snapshot)], Whole(snapshot);
      } else {
        writeChain := writeChain[j := Rejected(snapshot, writeChain[j].torn)];
      }
    }

    method Dispatch(e: Event)
      requires WellFormed(config, View()) && Enabled(View(), e)
      modifies this
      ensures View() == Apply(config, old(View()), e)
    {
      if Flushes(e) {
        OnFlush(e.job, e);
      } else if e.Claim? {
        ClaimNext(e.w);
      } else if e.Wake? {
        OnWake(e.w);
      } else if e.PutLands? || e.PutResolves? || e.PutRejects? {
        OnPut(e.w, e);
      } else {
        OnRead(e.w, e);
      }
    }

    /** Any run of the pool: every theorem about Exec is one about this object. */
    method Replay(es: seq<Event>)
      requires Run(config, View(), es)
      modifies this
      ensures View() == Exec(config, old(View()), es)
    {
      ghost var s0 := View();
      for k := 0 to |es|
        invariant Run(config, View(), es[k..])
        invariant Exec(config, View(), es[k..]) == Exec(config, s0, es)
      {
        assert es[k..][0] == es[k] && es[k..][1..] == es[k + 1..];
        Dispatch(es[k]);
      }
    }
  }

  /** `counts` and the index shared by the verification workers. */
  class Verification {
    const job: V.Job
    var nextIndex: nat
    var verified: nat
    var mismatch: nat
    var missing: nat
    var workers: seq<V.Pc>
    ghost var verdicts: map<nat, V.Verdict>

    ghost function View(): V.State
      reads this
    {
      V.State(nextIndex, verified, mismatch, missing, workers, verdicts)
    }

    constructor (job: V.Job, workerCount: nat)
      ensures this.job == job && View() == V.Init(workerCount)
    {
      this.job := job;
      nextIndex, verified, mismatch, missing := 0, 0, 0, 0;
      workers := seq(workerCount, _ => V.Top);
      verdicts := map[];
    }

    /** The body of a document came back, or null. */
    method OnBody(w: nat)
      requires V.WellFormed(job, View()) && V.Enabled(View(), V.ReadBody(w))
      modifies this
      ensures View() == V.Apply(job, old(View()), V.ReadBody(w))
    {
      var index := workers[w].index;
      var path := job.paths[index];
      workers := workers[w := V.Top];
      if path !in job.target {
        missing := missing + 1;
        verdicts := verdicts[index := V.Missing];
      } else if job.config.EntryOf(job.target[path]) == job.docs[path] {
        verified := verified + 1;
        verdicts := verdicts[index := V.Verified];
      } else {
        mismatch := mismatch + 1;
        verdicts := verdicts[index := V.Mismatch];
      }
    }

    method OnError(w: nat)
      requires V.WellFormed(job, View()) && V.Enabled(View(), V.ReadError(w))
      modifies this
      ensures View() == V.Apply(job, old(View()), V.ReadError(w))
    {
      var pc := workers[w];
      if pc.attempt < job.config.attempts {
        workers := workers[w := V.Nap(pc.index, pc.attempt)];
      } else {
        mismatch := mismatch + 1;
        workers, verdicts := workers[w := V.Top], verdicts[pc.index := V.Mismatch];
      }
    }

    method Dispatch(e: V.Event)
      requires V.WellFormed(job, View()) && V.Enabled(View(), e)
      modifies this
      ensures View() == V.Apply(job, old(View()), e)
    {
      match e
      case ReadBody(w) => OnBody(w);
      case ReadError(w) => OnError(w);
      case Wake(w) => workers := workers[w := V.Reading(workers[w].index, workers[w].attempt + 1)];
      case Claim(w) =>
        workers := workers[w := if nextIndex < |job.paths| then V.Reading(nextIndex, 1) else V.Done];
        nextIndex := nextIndex + 1;
    }

    method Replay(es: seq<V.Event>)
      requires V.Run(job, View(), es)
      modifies this
      ensures View() == V.Exec(job, old(View()), es)
    {
      ghost var s0 := View();
      for k := 0 to |es|
        invariant V.Run(job, View(), es[k..])
        invariant V.Exec(job, View(), es[k..]) == V.Exec(job, s0, es)
      {
        assert es[k..][0] == es[k] && es[k..][1..] == es[k + 1..];
        Dispatch(es[k]);
      }
    }
  }

  /** The end of main: what the two pools left decides `process.exitCode`. */
  method Conclude(run: CopyRun, verification: Verification) returns (exitCode: nat)
    ensures exitCode == MigrateMain.ExitCode(run.config, run.View(), verification.View())
    ensures exitCode == 0 || exitCode == 1
    ensures exitCode == 0 <==> !run.failed && (run.config.dryRun || (verification.mismatch == 0 && verification.missing == 0))
  {
    exitCode := 0;
    if run.failed {
      exitCode := 1;
    }
    if !run.config.dryRun && (verification.mismatch > 0 || verification.missing > 0) {
      exitCode := 1;
    }
  }

  /** What main settles before the copy workers start: the selected paths and the prior manifest. */
  function ConfigFor(all: seq<Path>, limit: Option<nat>, resume: bool, attempts: nat, disk: Disk,
                     sha256: Text -> string, byteLength: Text -> nat): Config {
    Config(MigrateMain.FirstN(MigrateMain.UserDocuments(all), limit), PriorDocs(resume, disk), resume, false, attempts,
           sha256, byteLength)
  }

  /** readManifest under resume; a manifest that is absent or does not parse counts as empty. */
  method ReadPrior(resume: bool, disk: Disk) returns (prior: map<Path, Entry>)
    ensures prior == PriorDocs(resume, disk)
    ensures resume && disk.Whole? ==> prior == disk.docs
    ensures !resume || disk.Absent? || disk.Torn? ==> prior == map[]
  {
    prior := map[];
    if resume {
      match disk {
        case Whole(docs) => prior := docs;
        case Absent =>
        case Torn =>
      }
    }
  }

  /** A whole copy run of main with its verification, under any schedule: the filter, the prior manifest,
      the two pools, to which `es` and `vs` happen, and the exit code. When that is zero, the target's
      body of every selected document has exactly the hash and size of the text that this run read. */
  method Migrate(all: seq<Path>, limit: Option<nat>, resume: bool, attempts: nat, concurrency: nat,
                 sha256: Text -> string, byteLength: Text -> nat, target: map<Path, Text>, disk: Disk,
                 es: seq<Event>, keys: seq<Path>, vs: seq<V.Event>) returns (run: CopyRun, exitCode: nat)
    requires Distinct(all)
    requires var c := ConfigFor(all, limit, resume, attempts, disk, sha256, byteLength);
             MigrateMain.Completed(c, WorkerCount(concurrency, |c.paths|), target, disk, es,
                                   keys, WorkerCount(concurrency, |keys|), vs)
    ensures fresh(run) && run.config == ConfigFor(all, limit, resume, attempts, disk, sha256, byteLength)
    ensures var c := run.config;
            var s0 := Init(c, WorkerCount(concurrency, |c.paths|), target, disk);
            && run.View() == Exec(c, s0, es)
            && var texts := MigrateMain.TextsRead(c, s0, es);
               exitCode == 0 ==> forall i :: 0 <= i < |c.paths| ==>
                 && i in texts
                 && c.paths[i] in run.target
                 && c.EntryOf(run.target[c.paths[i]]) == c.EntryOf(texts[i])
    ensures exitCode == 0 || exitCode == 1
    ensures var job := V.Job(run.config, keys, run.docs, run.target);
            var verdicts := V.Exec(job, V.Init(WorkerCount(concurrency, |keys|)), vs).verdicts;
            exitCode == 0 <==>
              && (forall i :: i in run.fates ==> !run.fates[i].Failed?)
              && (forall k: nat :: k < |keys| ==> k in verdicts && verdicts[k] == V.Verified)
  {
    var paths, _ := MigrateMain.Select(all, limit);
    var prior := ReadPrior(resume, disk);
    MigrateMain.SelectionIsFaithful(all);
    var c := Config(paths, prior, resume, false, attempts, sha256, byteLength);
    assert c == ConfigFor(all, limit, resume, attempts, disk, sha256, byteLength);
    run := new CopyRun(c, concurrency, target, disk);
    run.Replay(es);
    var job := V.Job(c, keys, run.docs, run.target);
    var verification := new Verification(job, WorkerCount(concurrency, |keys|));
    verification.Replay(vs);
    exitCode := Conclude(run, verification);
    MigrateMain.FailedIff(c, WorkerCount(concurrency, |c.paths|), target, disk, es);
    MigrateMain.CleanIff(job, WorkerCount(concurrency, |keys|), vs);
    if exitCode == 0 {
      MigrateMain.EndToEnd(c, WorkerCount(concurrency, |c.paths|), target, disk, es, keys, WorkerCount(concurrency, |keys|), vs);
    }
  }
}
