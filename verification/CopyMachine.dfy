/** The copy phase of scripts/migrate-database.mjs as a step system.

    Each worker is a program counter split at every `await`; the shared variables of `state` and
    `manifest`, the target database, the manifest file and the chain of queued manifest writes are
    the rest of the state. Which step comes next, what a read returns, whether a put takes effect
    and whether it reports success are all chosen by an adversary: they are the events of a run.
    Claiming is a step of its own, so a run here may interleave more finely than the original. */
module CopyMachine {
  import opened WorkerPool

  type Path = string
  type Text = string

  /** ATTEMPTS in the source; the proofs hold for any positive number of attempts. */
  const ATTEMPTS: nat := 3
  const MANIFEST_FLUSH_INTERVAL: nat := 500

  /** One manifest record. */
  datatype Entry = Entry(size: nat, sha256: string)

  /** The manifest file. A write truncates the file before it fills it, so a crash can leave text
      that is not a manifest. */
  datatype Disk = Absent | Torn | Whole(docs: map<Path, Entry>)

  /** What stays fixed during one run. SHA-256 and the byte length are uninterpreted. */
  datatype Config = Config(
    paths: seq<Path>,
    prior: map<Path, Entry>,
    resume: bool,
    dryRun: bool,
    attempts: nat,
    sha256: Text -> string,
    byteLength: Text -> nat)
  {
    predicate Valid() {
      attempts >= 1 && (!resume ==> prior == map[])
    }

    function EntryOf(t: Text): Entry {
      Entry(byteLength(t), sha256(t))
    }

    /** `skipPut` in copyWorker. */
    predicate Skips(i: nat, t: Text)
      requires i < |paths|
    {
      resume && paths[i] in prior && prior[paths[i]] == EntryOf(t)
    }
  }

  /** `priorDocs`: an absent or unparsable manifest counts as empty. */
  function PriorDocs(resume: bool, disk: Disk): map<Path, Entry> {
    if resume && disk.Whole? then disk.docs else map[]
  }

  /** Where a worker is: the await it is suspended at. */
  datatype Pc =
    | Top
    | Reading(index: nat, attempt: nat)
    | ReadNap(index: nat, attempt: nat)
    | Putting(index: nat, text: Text, attempt: nat, landed: bool)
    | PutNap(index: nat, text: Text, attempt: nat)
    | Done

  predicate Working(pc: Pc) {
    !pc.Top? && !pc.Done?
  }

  /** One link of `writeChain`. The snapshot is what JSON.stringify saw when the write began. */
  datatype Job =
    | Queued
    | Writing(snapshot: map<Path, Entry>, torn: bool)
    | Written(snapshot: map<Path, Entry>)
    | Rejected(snapshot: map<Path, Entry>, torn: bool)

  /** How one document ended, with the text that was read for it. */
  datatype Fate = Migrated(text: Text) | Skipped(text: Text) | Failed

  /** `fates` is a history variable: the original keeps only the counters. */
  datatype State = State(
    nextIndex: nat,
    processed: nat,
    migrated: nat,
    skipped: nat,
    bytes: nat,
    failed: bool,
    docs: map<Path, Entry>,
    target: map<Path, Text>,
    workers: seq<Pc>,
    flushes: seq<Job>,
    disk: Disk,
    fates: map<nat, Fate>)

  datatype Event =
    | Claim(w: nat)
    | ReadText(w: nat, text: Text)
    | ReadNull(w: nat)
    | ReadError(w: nat)
    | Wake(w: nat)
    | PutLands(w: nat)
    | PutResolves(w: nat)
    | PutRejects(w: nat)
    | FlushStarts(job: nat)
    | FlushTears(job: nat)
    | FlushEnds(job: nat)
    | FlushRejects(job: nat)

  function Init(c: Config, workers: nat, target: map<Path, Text>, disk: Disk): State {
    State(0, 0, 0, 0, 0, false, c.prior, target, seq(workers, _ => Top), [], disk, map[])
  }

  /** A working program counter names a document and one of the allowed attempts. */
  predicate PcOk(c: Config, pc: Pc) {
    Working(pc) ==>
      && pc.index < |c.paths|
      && 1 <= pc.attempt <= c.attempts
      && (pc.ReadNap? || pc.PutNap? ==> pc.attempt < c.attempts)
  }

  predicate WellFormed(c: Config, s: State) {
    c.Valid() && forall w :: 0 <= w < |s.workers| ==> PcOk(c, s.workers[w])
  }

  predicate Enabled(s: State, e: Event) {
    match e
    case Claim(w) => w < |s.workers| && s.workers[w].Top?
    case ReadText(w, _) => w < |s.workers| && s.workers[w].Reading?
    case ReadNull(w) => w < |s.workers| && s.workers[w].Reading?
    case ReadError(w) => w < |s.workers| && s.workers[w].Reading?
    case Wake(w) => w < |s.workers| && (s.workers[w].ReadNap? || s.workers[w].PutNap?)
    case PutLands(w) => w < |s.workers| && s.workers[w].Putting? && !s.workers[w].landed
    case PutResolves(w) => w < |s.workers| && s.workers[w].Putting? && s.workers[w].landed
    case PutRejects(w) => w < |s.workers| && s.workers[w].Putting?
    case FlushStarts(j) => j < |s.flushes| && s.flushes[j].Queued? && (j == 0 || s.flushes[j - 1].Written?)
    case FlushTears(j) => j < |s.flushes| && s.flushes[j].Writing? && !s.flushes[j].torn
    case FlushEnds(j) => j < |s.flushes| && s.flushes[j].Writing? && s.flushes[j].torn
    case FlushRejects(j) => j < |s.flushes| && s.flushes[j].Writing?
  }

  /** The tail of the loop body once a document was processed: count it, and queue a manifest
      write whenever the count reaches a multiple of the interval. */
  function CountProcessed(s: State): State {
    s.(processed := s.processed + 1,
       flushes := if (s.processed + 1) % MANIFEST_FLUSH_INTERVAL == 0 then s.flushes + [Queued] else s.flushes)
  }

  /** Worker w is done with its document; it goes back to the head of the loop. */
  function Settle(c: Config, s: State, w: nat, fate: Fate): State
    requires w < |s.workers| && Working(s.workers[w]) && PcOk(c, s.workers[w])
  {
    var i := s.workers[w].index;
    var s' := s.(workers := s.workers[w := Top], fates := s.fates[i := fate]);
    match fate
    case Failed => s'.(failed := true)
    case Skipped(_) => CountProcessed(s'.(skipped := s.skipped + 1))
    case Migrated(t) =>
      CountProcessed(s'.(docs := s.docs[c.paths[i] := c.EntryOf(t)],
                         migrated := s.migrated + 1,
                         bytes := s.bytes + c.byteLength(t)))
  }

  function Park(s: State, w: nat, pc: Pc): State
    requires w < |s.workers|
  {
    s.(workers := s.workers[w := pc])
  }

  function Apply(c: Config, s: State, e: Event): (s': State)
    requires WellFormed(c, s) && Enabled(s, e)
    ensures WellFormed(c, s') && |s'.workers| == |s.workers|
  {
    match e
    case Claim(w) =>
      Park(s, w, if s.nextIndex < |c.paths| then Reading(s.nextIndex, 1) else Done).(nextIndex := s.nextIndex + 1)
    case ReadText(w, t) =>
      var i := s.workers[w].index;
      if c.Skips(i, t) then Settle(c, s, w, Skipped(t))
      else if c.dryRun then Settle(c, s, w, Migrated(t))
      else Park(s, w, Putting(i, t, 1, false))
    case ReadNull(w) =>
      Settle(c, s, w, Failed)
    case ReadError(w) =>
      var pc := s.workers[w];
      if pc.attempt < c.attempts then Park(s, w, ReadNap(pc.index, pc.attempt)) else Settle(c, s, w, Failed)
    case Wake(w) =>
      var pc := s.workers[w];
      Park(s, w, if pc.ReadNap? then Reading(pc.index, pc.attempt + 1)
                 else Putting(pc.index, pc.text, pc.attempt + 1, false))
    case PutLands(w) =>
      var pc := s.workers[w];
      Park(s, w, pc.(landed := true)).(target := s.target[c.paths[pc.index] := pc.text])
    case PutResolves(w) =>
      Settle(c, s, w, Migrated(s.workers[w].text))
    case PutRejects(w) =>
      var pc := s.workers[w];
      if pc.attempt < c.attempts then Park(s, w, PutNap(pc.index, pc.text, pc.attempt)) else Settle(c, s, w, Failed)
    case FlushStarts(j) => s.(flushes := s.flushes[j := Writing(s.docs, false)])
    case FlushTears(j) => s.(flushes := s.flushes[j := Writing(s.flushes[j].snapshot, true)], disk := Torn)
    case FlushEnds(j) =>
      var snapshot := s.flushes[j].snapshot;
      s.(flushes := s.flushes[j := Written(snapshot)], disk := Whole(snapshot))
    case FlushRejects(j) =>
      s.(flushes := s.flushes[j := Rejected(s.flushes[j].snapshot, s.flushes[j].torn)])
  }

  /** es is a run from s: every event is possible when its turn comes. */
  predicate Run(c: Config, s: State, es: seq<Event>)
    decreases |es|
  {
    WellFormed(c, s) && (es != [] ==> Enabled(s, es[0]) && Run(c, Apply(c, s, es[0]), es[1..]))
  }

  function Exec(c: Config, s: State, es: seq<Event>): (s': State)
    requires Run(c, s, es)
    ensures WellFormed(c, s') && |s'.workers| == |s.workers|
    decreases |es|
  {
    if es == [] then s else Exec(c, Apply(c, s, es[0]), es[1..])
  }

  lemma ExecCons(c: Config, s: State, e: Event, es: seq<Event>)
    requires WellFormed(c, s) && Enabled(s, e) && Run(c, Apply(c, s, e), es)
    ensures Run(c, s, [e] + es) && Exec(c, s, [e] + es) == Exec(c, Apply(c, s, e), es)
  {
    assert ([e] + es)[1..] == es;
  }

  predicate AllDone(s: State) {
    forall w :: 0 <= w < |s.workers| ==> s.workers[w].Done?
  }

  /** `await state.writeChain` resolves exactly when every link was written. */
  predicate ChainResolved(s: State) {
    forall j :: 0 <= j < |s.flushes| ==> s.flushes[j].Written?
  }

  // ----- the copy workers are an instance of the worker pool

  function SlotOf(pc: Pc): Slot {
    if pc.Top? then Free else if pc.Done? then Finished else Busy(pc.index)
  }

  function PoolOf(s: State): Pool {
    Pool(s.nextIndex, seq(|s.workers|, w requires 0 <= w < |s.workers| => SlotOf(s.workers[w])), s.fates.Keys)
  }

  ghost predicate Claims(c: Config, s: State) {
    PoolInv(|c.paths|, PoolOf(s))
  }

  lemma InitClaims(c: Config, workers: nat, target: map<Path, Text>, disk: Disk)
    ensures Claims(c, Init(c, workers, target, disk))
  {
    InitPoolInv(|c.paths|, workers);
    assert PoolOf(Init(c, workers, target, disk)) == InitPool(workers);
  }

  lemma SettleClaims(c: Config, s: State, w: nat, fate: Fate)
    requires Claims(c, s) && w < |s.workers| && Working(s.workers[w]) && PcOk(c, s.workers[w])
    ensures s.workers[w].index !in s.fates
    ensures Claims(c, Settle(c, s, w, fate))
  {
    SettleKeepsPool(|c.paths|, PoolOf(s), w);
    assert PoolOf(Settle(c, s, w, fate)) == AfterSettle(PoolOf(s), w);
  }

  /** How an event acts on the claims: it settles a document, claims one, or leaves them alone. */
  predicate Settles(c: Config, s: State, e: Event)
    requires WellFormed(c, s) && Enabled(s, e)
  {
    match e
    case ReadText(w, t) => c.Skips(s.workers[w].index, t) || c.dryRun
    case ReadNull(w) => true
    case ReadError(w) => s.workers[w].attempt == c.attempts
    case PutResolves(w) => true
    case PutRejects(w) => s.workers[w].attempt == c.attempts
    case _ => false
  }

  function FateBy(c: Config, s: State, e: Event): Fate
    requires WellFormed(c, s) && Enabled(s, e) && Settles(c, s, e)
  {
    match e
    case ReadText(w, t) => if c.Skips(s.workers[w].index, t) then Skipped(t) else Migrated(t)
    case PutResolves(w) => Migrated(s.workers[w].text)
    case _ => Failed
  }

  lemma SettlingStep(c: Config, s: State, e: Event)
    requires WellFormed(c, s) && Enabled(s, e) && Settles(c, s, e)
    ensures Working(s.workers[e.w]) && Apply(c, s, e) == Settle(c, s, e.w, FateBy(c, s, e))
  {
  }

  predicate Flushes(e: Event) {
    e.FlushStarts? || e.FlushTears? || e.FlushEnds? || e.FlushRejects?
  }

  /** A step that neither settles a document nor moves the write chain leaves the record alone. */
  lemma QuietStep(c: Config, s: State, e: Event)
    requires WellFormed(c, s) && Enabled(s, e) && !Settles(c, s, e) && !Flushes(e)
    ensures var s' := Apply(c, s, e);
            s'.docs == s.docs && s'.fates == s.fates && s'.flushes == s.flushes && s'.disk == s.disk
  {
  }

  lemma StepClaims(c: Config, s: State, e: Event)
    requires WellFormed(c, s) && Enabled(s, e) && Claims(c, s)
    ensures Claims(c, Apply(c, s, e))
    ensures Settles(c, s, e) ==> s.workers[e.w].index !in s.fates
  {
    if Settles(c, s, e) {
      SettlingStep(c, s, e);
      SettleClaims(c, s, e.w, FateBy(c, s, e));
    } else if e.Claim? {
      ClaimKeepsPool(|c.paths|, PoolOf(s), e.w);
      assert PoolOf(Apply(c, s, e)) == AfterClaim(|c.paths|, PoolOf(s), e.w);
    } else {
      assert PoolOf(Apply(c, s, e)) == PoolOf(s);
    }
  }

  /** Two workers never hold the same document, and a held document has not been settled. */
  lemma HeldOnce(c: Config, s: State, v: nat, w: nat)
    requires Claims(c, s)
    requires v < |s.workers| && w < |s.workers| && Working(s.workers[v]) && Working(s.workers[w])
    ensures s.workers[v].index == s.workers[w].index ==> v == w
    ensures s.workers[v].index !in s.fates && s.workers[v].index < s.nextIndex
  {
    var p := PoolOf(s);
    assert Holds(p, v, s.workers[v].index) && Holds(p, w, s.workers[w].index);
  }
}
