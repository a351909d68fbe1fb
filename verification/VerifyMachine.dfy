/** The verification phase of scripts/migrate-database.mjs: a second pool of workers reads every
    document of the manifest back from the target and classifies it into shared counters. */
module VerifyMachine {
  import opened Prelude
  import opened WorkerPool
  import C = CopyMachine

  type Path = C.Path
  type Text = C.Text

  datatype Pc =
    | Top
    | Reading(index: nat, attempt: nat)
    | Nap(index: nat, attempt: nat)
    | Done

  datatype Verdict = Verified | Mismatch | Missing

  /** The manifest, the order Object.keys lists it in, and the target, which nothing writes now. */
  datatype Job = Job(config: C.Config, paths: seq<Path>, docs: map<Path, C.Entry>, target: map<Path, Text>)
  {
    predicate Valid() {
      && config.attempts >= 1
      && Distinct(paths)
      && docs.Keys == set p | p in paths
    }
  }

  /** `verdicts` is a history variable: the original keeps only the counters. */
  datatype State = State(
    nextIndex: nat,
    verified: nat,
    mismatch: nat,
    missing: nat,
    workers: seq<Pc>,
    verdicts: map<nat, Verdict>)

  datatype Event =
    | Claim(w: nat)
    | ReadBody(w: nat)
    | ReadError(w: nat)
    | Wake(w: nat)

  function Init(workers: nat): State {
    State(0, 0, 0, 0, seq(workers, _ => Top), map[])
  }

  predicate Working(pc: Pc) {
    pc.Reading? || pc.Nap?
  }

  predicate PcOk(j: Job, pc: Pc) {
    Working(pc) ==>
      pc.index < |j.paths| && 1 <= pc.attempt <= j.config.attempts && (pc.Nap? ==> pc.attempt < j.config.attempts)
  }

  predicate WellFormed(j: Job, s: State) {
    j.Valid() && forall w :: 0 <= w < |s.workers| ==> PcOk(j, s.workers[w])
  }

  predicate Enabled(s: State, e: Event) {
    match e
    case Claim(w) => w < |s.workers| && s.workers[w].Top?
    case ReadBody(w) => w < |s.workers| && s.workers[w].Reading?
    case ReadError(w) => w < |s.workers| && s.workers[w].Reading?
    case Wake(w) => w < |s.workers| && s.workers[w].Nap?
  }

  /** How a body that could be read is classified. */
  function Judge(j: Job, i: nat): Verdict
    requires j.Valid() && i < |j.paths|
  {
    var p := j.paths[i];
    if p !in j.target then Missing
    else if j.config.EntryOf(j.target[p]) == j.docs[p] then Verified
    else Mismatch
  }

  function Settle(s: State, w: nat, v: Verdict): State
    requires w < |s.workers| && Working(s.workers[w])
  {
    var s' := s.(workers := s.workers[w := Top], verdicts := s.verdicts[s.workers[w].index := v]);
    match v
    case Verified => s'.(verified := s.verified + 1)
    case Mismatch => s'.(mismatch := s.mismatch + 1)
    case Missing => s'.(missing := s.missing + 1)
  }

  predicate Settles(j: Job, s: State, e: Event)
    requires WellFormed(j, s) && Enabled(s, e)
  {
    e.ReadBody? || (e.ReadError? && s.workers[e.w].attempt == j.config.attempts)
  }

  function VerdictBy(j: Job, s: State, e: Event): Verdict
    requires WellFormed(j, s) && Enabled(s, e) && Settles(j, s, e)
  {
    if e.ReadBody? then Judge(j, s.workers[e.w].index) else Mismatch
  }

  function Apply(j: Job, s: State, e: Event): (s': State)
    requires WellFormed(j, s) && Enabled(s, e)
    ensures WellFormed(j, s') && |s'.workers| == |s.workers|
  {
    var pc := s.workers[e.w];
    match e
    case Claim(w) =>
      s.(workers := s.workers[w := if s.nextIndex < |j.paths| then Reading(s.nextIndex, 1) else Done],
         nextIndex := s.nextIndex + 1)
    case ReadBody(w) => Settle(s, w, Judge(j, pc.index))
    case ReadError(w) =>
      if pc.attempt < j.config.attempts then s.(workers := s.workers[w := Nap(pc.index, pc.attempt)])
      else Settle(s, w, Mismatch)
    case Wake(w) => s.(workers := s.workers[w := Reading(pc.index, pc.attempt + 1)])
  }

  predicate Run(j: Job, s: State, es: seq<Event>)
    decreases |es|
  {
    WellFormed(j, s) && (es != [] ==> Enabled(s, es[0]) && Run(j, Apply(j, s, es[0]), es[1..]))
  }

  function Exec(j: Job, s: State, es: seq<Event>): (s': State)
    requires Run(j, s, es)
    ensures WellFormed(j, s') && |s'.workers| == |s.workers|
    decreases |es|
  {
    if es == [] then s else Exec(j, Apply(j, s, es[0]), es[1..])
  }

  predicate AllDone(s: State) {
    forall w :: 0 <= w < |s.workers| ==> s.workers[w].Done?
  }

  // ----- claims and counters

  function SlotOf(pc: Pc): Slot {
    if pc.Top? then Free else if pc.Done? then Finished else Busy(pc.index)
  }

  function PoolOf(s: State): Pool {
    Pool(s.nextIndex, seq(|s.workers|, w requires 0 <= w < |s.workers| => SlotOf(s.workers[w])), s.verdicts.Keys)
  }

  function IsVerified(v: Verdict): nat { if v.Verified? then 1 else 0 }

  function IsMismatch(v: Verdict): nat { if v.Mismatch? then 1 else 0 }

  function IsMissing(v: Verdict): nat { if v.Missing? then 1 else 0 }

  /** The claims are exactly once, the counters tell the verdicts, and a verdict on a document is
      the one its body deserves unless all its reads failed. */
  ghost predicate Inv(j: Job, s: State) {
    && WellFormed(j, s) && PoolInv(|j.paths|, PoolOf(s))
    && s.verified == SumOver(s.verdicts, IsVerified, |j.paths|)
    && s.mismatch == SumOver(s.verdicts, IsMismatch, |j.paths|)
    && s.missing == SumOver(s.verdicts, IsMissing, |j.paths|)
    && (forall i :: 0 <= i < |j.paths| && i in s.verdicts ==> s.verdicts[i] == Judge(j, i) || s.verdicts[i] == Mismatch)
  }

  lemma InitInv(j: Job, workers: nat)
    requires j.Valid()
    ensures Inv(j, Init(workers))
  {
    var s := Init(workers);
    InitPoolInv(|j.paths|, workers);
    assert PoolOf(s) == InitPool(workers);
    SumOverZero(s.verdicts, IsVerified, |j.paths|);
    SumOverZero(s.verdicts, IsMismatch, |j.paths|);
    SumOverZero(s.verdicts, IsMissing, |j.paths|);
  }

  lemma SettleInv(j: Job, s: State, w: nat, v: Verdict)
    requires Inv(j, s) && w < |s.workers| && Working(s.workers[w])
    requires v == Judge(j, s.workers[w].index) || v == Mismatch
    ensures Inv(j, Settle(s, w, v))
    ensures s.workers[w].index !in s.verdicts
  {
    var s', i, n := Settle(s, w, v), s.workers[w].index, |j.paths|;
    SettleKeepsPool(n, PoolOf(s), w);
    assert PoolOf(s') == AfterSettle(PoolOf(s), w);
    SumOverAdd(s.verdicts, i, v, IsVerified, n);
    SumOverAdd(s.verdicts, i, v, IsMismatch, n);
    SumOverAdd(s.verdicts, i, v, IsMissing, n);
  }

  lemma StepInv(j: Job, s: State, e: Event)
    requires Inv(j, s) && Enabled(s, e)
    ensures Inv(j, Apply(j, s, e))
    ensures Settles(j, s, e) ==> s.workers[e.w].index !in s.verdicts
  {
    var s' := Apply(j, s, e);
    if Settles(j, s, e) {
      SettleInv(j, s, e.w, VerdictBy(j, s, e));
    } else if e.Claim? {
      ClaimKeepsPool(|j.paths|, PoolOf(s), e.w);
      assert PoolOf(s') == AfterClaim(|j.paths|, PoolOf(s), e.w);
    } else {
      assert PoolOf(s') == PoolOf(s);
    }
  }

  lemma {:induction false} RunInv(j: Job, s: State, es: seq<Event>)
    requires Run(j, s, es) && Inv(j, s)
    ensures Inv(j, Exec(j, s, es))
    decreases |es|
  {
    if es == [] {
    } else {
      StepInv(j, s, es[0]);
      RunInv(j, Apply(j, s, es[0]), es[1..]);
    }
  }

  lemma KeysCount(j: Job)
    requires j.Valid()
    ensures |j.paths| == |j.docs|
  {
    DistinctCount(j.paths);
    assert (set p | p in j.paths) == j.docs.Keys;
  }

  lemma {:induction false} DistinctCount(s: seq<Path>)
    requires Distinct(s)
    ensures |set p | p in s| == |s|
  {
    if s == [] {
    } else {
      var front, last := s[..|s| - 1], s[|s| - 1];
      DistinctCount(front);
      assert (set p | p in s) == (set p | p in front) + {last};
    }
  }

  /** A finished pool has a verdict on every document of the manifest, and on nothing else. */
  lemma AllJudged(j: Job, s: State)
    requires Inv(j, s) && |s.workers| > 0 && AllDone(s)
    ensures s.nextIndex == |j.paths| + |s.workers|
    ensures forall i: nat :: i in s.verdicts <==> i < |j.paths|
  {
    FinishedPool(|j.paths|, PoolOf(s));
    assert forall i: nat :: i in s.verdicts <==> i in PoolOf(s).settled;
  }

  predicate Confirmed(j: Job, p: Path)
    requires p in j.docs
  {
    p in j.target && j.config.EntryOf(j.target[p]) == j.docs[p]
  }

  /** A finished verification has one verdict per manifest entry: verified + mismatch + missing is the
      number of entries, and it is only clean when every entry is confirmed by the target. */
  lemma VerifyConservation(j: Job, workers: nat, es: seq<Event>)
    requires workers > 0 && Run(j, Init(workers), es) && AllDone(Exec(j, Init(workers), es))
    ensures var s := Exec(j, Init(workers), es);
            && s.nextIndex == |j.docs| + workers
            && s.verified + s.mismatch + s.missing == |j.docs|
            && (s.mismatch == 0 && s.missing == 0 ==> forall p :: p in j.docs ==> Confirmed(j, p))
  {
    var s := Exec(j, Init(workers), es);
    InitInv(j, workers);
    RunInv(j, Init(workers), es);
    KeysCount(j);
    AllJudged(j, s);
    SumOverPartition(s.verdicts, IsVerified, IsMismatch, IsMissing, |j.paths|);
    if s.mismatch == 0 && s.missing == 0 {
      CleanMeansConfirmed(j, s);
    }
  }

  lemma CleanMeansConfirmed(j: Job, s: State)
    requires Inv(j, s) && (forall i: nat :: i in s.verdicts <==> i < |j.paths|)
    requires s.mismatch == 0 && s.missing == 0
    ensures forall p :: p in j.docs ==> Confirmed(j, p)
  {
    SumOverZero(s.verdicts, IsMismatch, |j.paths|);
    SumOverZero(s.verdicts, IsMissing, |j.paths|);
    forall p | p in j.docs
      ensures Confirmed(j, p)
    {
      var i :| 0 <= i < |j.paths| && j.paths[i] == p;
      assert i in s.verdicts && s.verdicts[i] == Verified;
    }
  }

  // ----- termination

  /** How many more steps one worker can take without claiming another document. */
  function Rank(j: Job, pc: Pc): nat
    requires PcOk(j, pc)
  {
    match pc
    case Done => 0
    case Top => 1
    case Reading(_, k) => 2 + 2 * (j.config.attempts - k)
    case Nap(_, k) => 1 + 2 * (j.config.attempts - k)
  }

  function RankSum(j: Job, pcs: seq<Pc>): nat
    requires forall w :: 0 <= w < |pcs| ==> PcOk(j, pcs[w])
  {
    if pcs == [] then 0 else RankSum(j, pcs[..|pcs| - 1]) + Rank(j, pcs[|pcs| - 1])
  }

  /** A bound on the length of every verification that starts in s. */
  function Fuel(j: Job, s: State): nat
    requires WellFormed(j, s)
  {
    var unclaimed := if s.nextIndex < |j.paths| then |j.paths| - s.nextIndex else 0;
    RankSum(j, s.workers) + unclaimed * (2 * j.config.attempts)
  }

  lemma {:induction false} RankSumUpdate(j: Job, pcs: seq<Pc>, w: nat, pc: Pc)
    requires w < |pcs| && PcOk(j, pc) && forall v :: 0 <= v < |pcs| ==> PcOk(j, pcs[v])
    ensures RankSum(j, pcs[w := pc]) == RankSum(j, pcs) - Rank(j, pcs[w]) + Rank(j, pc)
  {
    var n := |pcs| - 1;
    if w == n {
      assert pcs[w := pc][..n] == pcs[..n];
    } else {
      assert pcs[w := pc][..n] == pcs[..n][w := pc];
      RankSumUpdate(j, pcs[..n], w, pc);
    }
  }

  lemma ParkBurns(j: Job, s: State, s': State, w: nat)
    requires WellFormed(j, s) && WellFormed(j, s') && w < |s.workers| == |s'.workers|
    requires s'.workers == s.workers[w := s'.workers[w]] && s'.nextIndex == s.nextIndex
    requires Rank(j, s'.workers[w]) < Rank(j, s.workers[w])
    ensures Fuel(j, s') < Fuel(j, s)
  {
    RankSumUpdate(j, s.workers, w, s'.workers[w]);
  }

  lemma ClaimBurns(j: Job, s: State, w: nat)
    requires WellFormed(j, s) && Enabled(s, Claim(w))
    ensures Fuel(j, Apply(j, s, Claim(w))) < Fuel(j, s)
  {
    RankSumUpdate(j, s.workers, w, Apply(j, s, Claim(w)).workers[w]);
    if s.nextIndex < |j.paths| {
      var left, m := |j.paths| - s.nextIndex, 2 * j.config.attempts;
      assert left * m == (left - 1) * m + m;
    }
  }

  /** Every step uses up fuel. */
  lemma StepBurns(j: Job, s: State, e: Event)
    requires WellFormed(j, s) && Enabled(s, e)
    ensures Fuel(j, Apply(j, s, e)) < Fuel(j, s)
  {
    if e.Claim? {
      ClaimBurns(j, s, e.w);
    } else {
      ParkBurns(j, s, Apply(j, s, e), e.w);
    }
  }

  /** No verification is longer than its fuel, for any workers, schedule and failures. */
  lemma {:induction false} RunsAreBounded(j: Job, s: State, es: seq<Event>)
    requires Run(j, s, es)
    ensures |es| + Fuel(j, Exec(j, s, es)) <= Fuel(j, s)
    decreases |es|
  {
    if es == [] {
    } else {
      StepBurns(j, s, es[0]);
      RunsAreBounded(j, Apply(j, s, es[0]), es[1..]);
    }
  }

  /** A verification that cannot be continued has finished. */
  lemma StuckMeansFinished(j: Job, s: State)
    requires WellFormed(j, s)
    requires forall e :: !Enabled(s, e)
    ensures AllDone(s)
  {
    forall w | 0 <= w < |s.workers|
      ensures s.workers[w].Done?
    {
      assert !Enabled(s, Claim(w)) && !Enabled(s, ReadError(w)) && !Enabled(s, Wake(w));
    }
  }

  // ----- schedule independence

  /** For every document, which of its read attempts fail. */
  predicate FailuresOk(j: Job, failures: seq<seq<bool>>) {
    |failures| == |j.paths| && forall i :: 0 <= i < |failures| ==> |failures[i]| == j.config.attempts
  }

  predicate Follows(j: Job, failures: seq<seq<bool>>, s: State, e: Event)
    requires WellFormed(j, s) && Enabled(s, e) && FailuresOk(j, failures)
  {
    var pc := s.workers[e.w];
    && (e.ReadBody? ==> !failures[pc.index][pc.attempt - 1])
    && (e.ReadError? ==> failures[pc.index][pc.attempt - 1])
  }

  predicate FollowingRun(j: Job, failures: seq<seq<bool>>, s: State, es: seq<Event>)
    requires FailuresOk(j, failures)
    decreases |es|
  {
    && Run(j, s, es)
    && (es != [] ==> Follows(j, failures, s, es[0]) && FollowingRun(j, failures, Apply(j, s, es[0]), es[1..]))
  }

  /** Unreadable means that every attempt fails. */
  function Classify(j: Job, failures: seq<seq<bool>>, i: nat): Verdict
    requires j.Valid() && FailuresOk(j, failures) && i < |j.paths|
  {
    if forall k :: 0 <= k < |failures[i]| ==> failures[i][k] then Mismatch else Judge(j, i)
  }

  datatype Counts = Counts(verified: nat, mismatch: nat, missing: nat)

  /** One document after the other. */
  function Pass(j: Job, failures: seq<seq<bool>>, k: nat): Counts
    requires j.Valid() && FailuresOk(j, failures) && k <= |j.paths|
  {
    if k == 0 then Counts(0, 0, 0)
    else
      var r := Pass(j, failures, k - 1);
      match Classify(j, failures, k - 1)
      case Verified => r.(verified := r.verified + 1)
      case Mismatch => r.(mismatch := r.mismatch + 1)
      case Missing => r.(missing := r.missing + 1)
  }

  /** The attempts behind program counter pc all failed. */
  predicate AllFailed(failures: seq<seq<bool>>, pc: Pc) {
    Working(pc) && pc.index < |failures| ==>
      forall k :: 0 <= k < pc.attempt - (if pc.Nap? then 0 else 1) && k < |failures[pc.index]| ==> failures[pc.index][k]
  }

  /** Every attempt behind a worker failed, and every verdict is the sequential one. */
  ghost predicate FollowInv(j: Job, failures: seq<seq<bool>>, s: State)
    requires FailuresOk(j, failures)
  {
    && Inv(j, s)
    && (forall w :: 0 <= w < |s.workers| ==> AllFailed(failures, s.workers[w]))
    && (forall i :: 0 <= i < |j.paths| && i in s.verdicts ==> s.verdicts[i] == Classify(j, failures, i))
  }

  lemma SettlesAsClassified(j: Job, failures: seq<seq<bool>>, s: State, e: Event)
    requires FailuresOk(j, failures) && FollowInv(j, failures, s) && Enabled(s, e) && Follows(j, failures, s, e)
    requires Settles(j, s, e)
    ensures VerdictBy(j, s, e) == Classify(j, failures, s.workers[e.w].index)
    ensures Apply(j, s, e) == Settle(s, e.w, VerdictBy(j, s, e))
  {
    var pc := s.workers[e.w];
    assert forall k :: 0 <= k < pc.attempt - 1 ==> failures[pc.index][k];
    if e.ReadBody? {
      assert !failures[pc.index][pc.attempt - 1];
    }
  }

  lemma WorkerFollows(j: Job, failures: seq<seq<bool>>, s: State, e: Event)
    requires FailuresOk(j, failures) && WellFormed(j, s) && Enabled(s, e) && Follows(j, failures, s, e)
    requires AllFailed(failures, s.workers[e.w])
    ensures AllFailed(failures, Apply(j, s, e).workers[e.w])
    ensures forall v :: 0 <= v < |s.workers| && v != e.w ==> Apply(j, s, e).workers[v] == s.workers[v]
  {
  }

  lemma StepFollows(j: Job, failures: seq<seq<bool>>, s: State, e: Event)
    requires FailuresOk(j, failures) && FollowInv(j, failures, s) && Enabled(s, e) && Follows(j, failures, s, e)
    ensures FollowInv(j, failures, Apply(j, s, e))
  {
    StepInv(j, s, e);
    var s' := Apply(j, s, e);
    if Settles(j, s, e) {
      SettlesAsClassified(j, failures, s, e);
    } else {
      assert s'.verdicts == s.verdicts;
    }
    WorkerFollows(j, failures, s, e);
  }

  lemma {:induction false} RunFollows(j: Job, failures: seq<seq<bool>>, s: State, es: seq<Event>)
    requires FailuresOk(j, failures) && FollowInv(j, failures, s) && FollowingRun(j, failures, s, es)
    ensures FollowInv(j, failures, Exec(j, s, es))
    decreases |es|
  {
    if es == [] {
    } else {
      StepFollows(j, failures, s, es[0]);
      RunFollows(j, failures, Apply(j, s, es[0]), es[1..]);
    }
  }

  /** Some attempt to read document i succeeds. */
  predicate Readable(failures: seq<seq<bool>>, i: nat) {
    i < |failures| && exists k :: 0 <= k < |failures[i]| && !failures[i][k]
  }

  /** In plain terms: a document that can be read is missing exactly when the target lacks it, and
      verified exactly when its body has the recorded hash and size; one that cannot is a mismatch. */
  lemma VerdictsIff(j: Job, failures: seq<seq<bool>>, workers: nat, es: seq<Event>)
    requires workers > 0 && FailuresOk(j, failures) && FollowingRun(j, failures, Init(workers), es)
    requires AllDone(Exec(j, Init(workers), es))
    ensures var s := Exec(j, Init(workers), es);
            forall i: nat :: i < |j.paths| ==>
              var p := j.paths[i];
              && i in s.verdicts
              && (s.verdicts[i] == Missing <==> Readable(failures, i) && p !in j.target)
              && (s.verdicts[i] == Verified <==>
                    && Readable(failures, i) && p in j.target
                    && j.config.sha256(j.target[p]) == j.docs[p].sha256
                    && j.config.byteLength(j.target[p]) == j.docs[p].size)
  {
    InitInv(j, workers);
    RunFollows(j, failures, Init(workers), es);
    AllJudged(j, Exec(j, Init(workers), es));
  }

  /** No document is missing that the target has, however its reads go. */
  lemma MissingIsMissing(j: Job, workers: nat, es: seq<Event>)
    requires j.Valid() && Run(j, Init(workers), es)
    ensures var s := Exec(j, Init(workers), es);
            forall i: nat :: i < |j.paths| && i in s.verdicts && s.verdicts[i] == Missing ==> j.paths[i] !in j.target
  {
    InitInv(j, workers);
    RunInv(j, Init(workers), es);
  }

  lemma {:induction false} PassCounts(j: Job, failures: seq<seq<bool>>, verdicts: map<nat, Verdict>, k: nat)
    requires j.Valid() && FailuresOk(j, failures) && k <= |j.paths|
    requires forall i :: 0 <= i < |j.paths| ==> i in verdicts && verdicts[i] == Classify(j, failures, i)
    ensures Pass(j, failures, k)
         == Counts(SumOver(verdicts, IsVerified, k), SumOver(verdicts, IsMismatch, k), SumOver(verdicts, IsMissing, k))
  {
    if k == 0 {
    } else {
      PassCounts(j, failures, verdicts, k - 1);
      assert verdicts[k - 1] == Classify(j, failures, k - 1);
    }
  }

  /** Verification is clean exactly when every entry can be read and matches. */
  lemma {:induction false} CleanPass(j: Job, failures: seq<seq<bool>>, k: nat)
    requires j.Valid() && FailuresOk(j, failures) && k <= |j.paths|
    ensures var r := Pass(j, failures, k);
            r.mismatch == 0 && r.missing == 0 <==> forall i :: 0 <= i < k ==> Classify(j, failures, i) == Verified
  {
    if k == 0 {
    } else {
      CleanPass(j, failures, k - 1);
    }
  }

  /** Whatever the interleaving and the number of workers, the shared counters end as one sequential
      classification pass would leave them. */
  lemma EveryScheduleIsThePass(j: Job, failures: seq<seq<bool>>, workers: nat, es: seq<Event>)
    requires workers > 0 && FailuresOk(j, failures) && FollowingRun(j, failures, Init(workers), es)
    requires AllDone(Exec(j, Init(workers), es))
    ensures var s := Exec(j, Init(workers), es);
            Counts(s.verified, s.mismatch, s.missing) == Pass(j, failures, |j.paths|)
  {
    var s0 := Init(workers);
    var s := Exec(j, s0, es);
    InitInv(j, workers);
    RunFollows(j, failures, s0, es);
    AllJudged(j, s);
    PassCounts(j, failures, s.verdicts, |j.paths|);
  }
}
