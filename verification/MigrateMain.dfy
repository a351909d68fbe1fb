/** `main` of scripts/migrate-database.mjs around the two pools: which documents are selected, how the
    exit code is decided, and what an exit code of zero promises. */
module MigrateMain {
  import opened Prelude
  import opened Strings
  import opened CopyMachine
  import opened CopyCounts
  import opened CopySchedule
  import opened CopyOutcomes
  import CopyCrash
  import V = VerifyMachine

  // ----- selection

  const INTERNAL_PREFIX: string := ".aeordb-"

  /** INTERNAL_PATTERN: some path segment starts with `.aeordb-`. */
  predicate IsInternal(path: Path) {
    exists k :: 0 <= k <= |path| && InternalAt(path, k)
  }

  predicate InternalAt(path: Path, k: nat)
    requires k <= |path|
  {
    (k == 0 || path[k - 1] == '/') && INTERNAL_PREFIX <= path[k..]
  }

  function UserDocuments(all: seq<Path>): seq<Path> {
    if all == [] then []
    else
      var rest := UserDocuments(all[..|all| - 1]);
      if IsInternal(all[|all| - 1]) then rest else rest + [all[|all| - 1]]
  }

  function FirstN(paths: seq<Path>, limit: Option<nat>): seq<Path> {
    if limit.Some? && limit.value < |paths| then paths[..limit.value] else paths
  }

  /** Some segment between slashes starts with the prefix. */
  predicate HasSegment(path: Path, prefix: string) {
    exists j :: 0 <= j < |PathSegments(path)| && prefix <= PathSegments(path)[j]
  }

  lemma {:induction false} FirstSegmentStarts(s: string, prefix: string)
    requires '/' !in prefix
    ensures prefix <= PathSegments(s)[0] <==> prefix <= s
  {
    if s != "" && prefix != "" {
      assert prefix == [prefix[0]] + prefix[1..];
      FirstSegmentStarts(s[1..], prefix[1..]);
      assert prefix <= s <==> prefix[0] == s[0] && prefix[1..] <= s[1..];
    }
  }

  predicate StartsBehindSlash(s: string, prefix: string) {
    exists k :: 1 <= k <= |s| && s[k - 1] == '/' && prefix <= s[k..]
  }

  predicate LaterSegmentStarts(parts: seq<string>, prefix: string) {
    exists j :: 1 <= j < |parts| && prefix <= parts[j]
  }

  lemma {:induction false} LaterSegments(s: string, prefix: string)
    requires '/' !in prefix
    ensures LaterSegmentStarts(PathSegments(s), prefix) <==> StartsBehindSlash(s, prefix)
  {
    if s == "" {
    } else {
      LaterSegments(s[1..], prefix);
      FirstSegmentStarts(s[1..], prefix);
      SlashShift(s, prefix);
      PartsShift(s, prefix);
    }
  }

  lemma PartsShift(s: string, prefix: string)
    requires s != ""
    ensures (var rest := PathSegments(s[1..]);
             LaterSegmentStarts(PathSegments(s), prefix) <==>
               (s[0] == '/' && prefix <= rest[0]) || LaterSegmentStarts(rest, prefix))
  {
    var parts, rest := PathSegments(s), PathSegments(s[1..]);
    if s[0] == '/' {
      assert parts == [""] + rest;
      if j :| 1 <= j < |parts| && prefix <= parts[j] {
        assert parts[j] == rest[j - 1];
      }
      if j :| 0 <= j < |rest| && prefix <= rest[j] {
        assert parts[j + 1] == rest[j];
      }
    } else {
      assert forall j :: 1 <= j < |parts| ==> parts[j] == rest[j];
      assert |parts| == |rest|;
    }
  }

  lemma SlashShift(s: string, prefix: string)
    requires s != ""
    ensures StartsBehindSlash(s, prefix) <==> (s[0] == '/' && prefix <= s[1..]) || StartsBehindSlash(s[1..], prefix)
  {
    if k :| 2 <= k <= |s| && s[k - 1] == '/' && prefix <= s[k..] {
      assert s[1..][k - 2] == '/' && s[1..][k - 1..] == s[k..];
    }
    if k :| 1 <= k <= |s[1..]| && s[1..][k - 1] == '/' && prefix <= s[1..][k..] {
      assert s[k] == '/' && s[k + 1..] == s[1..][k..];
    }
  }

  /** Internal are exactly the paths with a segment that starts with `.aeordb-`. */
  lemma InternalIff(path: Path)
    ensures IsInternal(path) <==> HasSegment(path, ".aeordb-")
  {
    var parts := PathSegments(path);
    FirstSegmentStarts(path, INTERNAL_PREFIX);
    LaterSegments(path, INTERNAL_PREFIX);
    if IsInternal(path) {
      var k :| 0 <= k <= |path| && InternalAt(path, k);
      assert k == 0 ==> path[k..] == path;
      if k > 0 {
        assert StartsBehindSlash(path, INTERNAL_PREFIX);
      }
    }
    if HasSegment(path, INTERNAL_PREFIX) {
      var j :| 0 <= j < |parts| && INTERNAL_PREFIX <= parts[j];
      if j == 0 {
        assert path[0..] == path && InternalAt(path, 0);
      } else {
        assert LaterSegmentStarts(parts, INTERNAL_PREFIX);
        var k :| 1 <= k <= |path| && path[k - 1] == '/' && INTERNAL_PREFIX <= path[k..];
        assert InternalAt(path, k);
      }
    }
  }

  /** paths are the wanted members of the listing at the places `at`, in the order of the listing, and one
      is only left out behind the last when the limit is reached. */
  ghost predicate FirstWanted(all: seq<Path>, wanted: Path -> bool, limit: Option<nat>, paths: seq<Path>, at: seq<nat>) {
    && |at| == |paths|
    && (forall i :: 0 <= i < |at| ==> at[i] < |all| && all[at[i]] == paths[i] && wanted(paths[i]))
    && (forall i, j :: 0 <= i < j < |at| ==> at[i] < at[j])
    && (limit.Some? ==> |at| <= limit.value)
    && (forall m: nat :: m < |all| && wanted(all[m]) ==>
          m in at || (limit == Some(|at|) && forall i :: 0 <= i < |at| ==> at[i] < m))
  }

  predicate IsUserDocument(path: Path) {
    !HasSegment(path, ".aeordb-")
  }

  lemma WantedSnoc(front: seq<Path>, p: Path, wanted: Path -> bool, paths: seq<Path>, at: seq<nat>)
    requires FirstWanted(front, wanted, None, paths, at)
    ensures !wanted(p) ==> FirstWanted(front + [p], wanted, None, paths, at)
    ensures wanted(p) ==> FirstWanted(front + [p], wanted, None, paths + [p], at + [|front|])
  {
    var at' := at + [|front|];
    assert at'[|at|] == |front| && forall m :: m in at ==> m in at';
    forall m: nat | m < |front + [p]| && wanted((front + [p])[m])
      ensures m in at'
      ensures !wanted(p) ==> m in at
    {
      if m < |front| {
        assert front[m] == (front + [p])[m];
      }
    }
  }

  lemma {:induction false} UserDocumentsAt(all: seq<Path>) returns (at: seq<nat>)
    ensures FirstWanted(all, IsUserDocument, None, UserDocuments(all), at)
  {
    if all == [] {
      at := [];
    } else {
      var front, last := all[..|all| - 1], all[|all| - 1];
      at := UserDocumentsAt(front);
      InternalIff(last);
      WantedSnoc(front, last, IsUserDocument, UserDocuments(front), at);
      assert all == front + [last];
      if IsUserDocument(last) {
        at := at + [|front|];
      }
    }
  }

  /** The filter loop of main and its slice. */
  method Select(all: seq<Path>, limit: Option<nat>) returns (paths: seq<Path>, excluded: nat)
    ensures paths == FirstN(UserDocuments(all), limit)
    ensures exists at :: FirstWanted(all, IsUserDocument, limit, paths, at)
    ensures excluded + |UserDocuments(all)| == |all|
  {
    paths, excluded := [], 0;
    for i := 0 to |all|
      invariant paths == UserDocuments(all[..i]) && excluded + |paths| == i
    {
      assert all[..i + 1][..i] == all[..i];
      if IsInternal(all[i]) {
        excluded := excluded + 1;
      } else {
        paths := paths + [all[i]];
      }
    }
    assert all[..|all|] == all;
    ghost var at := UserDocumentsAt(all);
    if limit.Some? && limit.value < |paths| {
      LimitKeepsFirst(all, IsUserDocument, limit.value, paths, at);
      paths := paths[..limit.value];
    } else {
      assert FirstWanted(all, IsUserDocument, limit, paths, at);
    }
  }

  lemma LimitKeepsFirst(all: seq<Path>, wanted: Path -> bool, n: nat, paths: seq<Path>, at: seq<nat>)
    requires FirstWanted(all, wanted, None, paths, at) && n <= |paths|
    ensures FirstWanted(all, wanted, Some(n), paths[..n], at[..n])
  {
    forall m: nat | m < |all| && wanted(all[m])
      ensures m in at[..n] || forall i :: 0 <= i < n ==> at[i] < m
    {
      var k :| 0 <= k < |at| && at[k] == m;
      if k < n {
        assert at[..n][k] == m;
      }
    }
  }

  /** The selection keeps exactly the user documents, in the order they were listed, and distinct
      paths stay distinct. */
  lemma {:induction false} SelectionIsFaithful(all: seq<Path>)
    ensures forall p :: p in UserDocuments(all) <==> p in all && !IsInternal(p)
    ensures Distinct(all) ==> Distinct(UserDocuments(all))
  {
    if all == [] {
    } else {
      var front, last := all[..|all| - 1], all[|all| - 1];
      SelectionIsFaithful(front);
      assert all == front + [last];
    }
  }

  // ----- the exit code

  /** main's decision at the end of a copy run that threw nothing. A dry run verifies nothing. */
  function ExitCode(c: Config, s: State, v: V.State): nat {
    if s.failed || (!c.dryRun && (v.mismatch > 0 || v.missing > 0)) then 1 else 0
  }

  /** main's decision in verify-only mode. */
  function VerifyOnlyExitCode(v: V.State): nat {
    if v.mismatch > 0 || v.missing > 0 then 1 else 0
  }

  /** A copy run up to its end, followed by a verification of its manifest against its target: the
      write chain resolved before verification began, and nothing wrote the target afterwards. */
  ghost predicate Completed(c: Config, workers: nat, target: map<Path, Text>, disk: Disk, es: seq<Event>,
                            keys: seq<Path>, verifiers: nat, vs: seq<V.Event>)
  {
    && workers > 0 && verifiers > 0
    && Run(c, Init(c, workers, target, disk), es)
    && var s := Exec(c, Init(c, workers, target, disk), es);
       && AllDone(s) && ChainResolved(s)
       && var j := V.Job(c, keys, s.docs, s.target);
          && j.Valid()
          && V.Run(j, V.Init(verifiers), vs) && V.AllDone(V.Exec(j, V.Init(verifiers), vs))
  }

  // ----- the texts a run read

  /** The text each document was read as, collected from the events of the run alone. */
  function TextsRead(c: Config, s: State, es: seq<Event>): map<nat, Text>
    requires Run(c, s, es)
    decreases |es|
  {
    if es == [] then map[]
    else
      var rest := TextsRead(c, Apply(c, s, es[0]), es[1..]);
      if es[0].ReadText? then rest[s.workers[es[0].w].index := es[0].text] else rest
  }

  predicate Knows(known: map<nat, Text>, i: nat, t: Text) {
    i in known && known[i] == t
  }

  /** Every text in play is the one read for its document, and the manifest is what the fates say. */
  ghost predicate ReadInv(c: Config, s: State, known: map<nat, Text>) {
    && WellFormed(c, s) && Claims(c, s)
    && s.docs == DocsAfter(c, s.fates, |c.paths|)
    && (forall i :: i in s.fates && !s.fates[i].Failed? ==> Knows(known, i, s.fates[i].text))
    && (forall i :: 0 <= i < |c.paths| && i in s.fates && s.fates[i].Skipped? ==> c.Skips(i, s.fates[i].text))
    && (forall w :: 0 <= w < |s.workers| && (s.workers[w].Putting? || s.workers[w].PutNap?)
                    ==> Knows(known, s.workers[w].index, s.workers[w].text))
  }

  /** What is known after one more event: a document is only ever read successfully once. */
  function Learn(c: Config, s: State, e: Event, known: map<nat, Text>): map<nat, Text>
    requires WellFormed(c, s) && Enabled(s, e)
  {
    if e.ReadText? then known[s.workers[e.w].index := e.text] else known
  }

  lemma SettleReads(c: Config, s: State, w: nat, f: Fate, known: map<nat, Text>)
    requires Distinct(c.paths) && ReadInv(c, s, known) && w < |s.workers| && Working(s.workers[w])
    requires !f.Failed? ==> Knows(known, s.workers[w].index, f.text)
    requires f.Skipped? ==> c.Skips(s.workers[w].index, f.text)
    ensures ReadInv(c, Settle(c, s, w, f), known)
  {
    SettleClaims(c, s, w, f);
    DocsAfterAdd(c, s.fates, s.workers[w].index, f, |c.paths|);
  }

  /** Learning the text of the document one worker is reading disturbs no other document. */
  lemma LearnReads(c: Config, s: State, e: Event, known: map<nat, Text>)
    requires ReadInv(c, s, known) && Enabled(s, e)
    ensures ReadInv(c, s, Learn(c, s, e, known))
  {
    if e.ReadText? {
      HeldOnce(c, s, e.w, e.w);
      forall w | 0 <= w < |s.workers| && w != e.w && Working(s.workers[w])
        ensures s.workers[w].index != s.workers[e.w].index
      {
        HeldOnce(c, s, w, e.w);
      }
    }
  }

  lemma StepReads(c: Config, s: State, e: Event, known: map<nat, Text>)
    requires Distinct(c.paths) && ReadInv(c, s, known) && Enabled(s, e)
    ensures ReadInv(c, Apply(c, s, e), Learn(c, s, e, known))
  {
    var known' := Learn(c, s, e, known);
    LearnReads(c, s, e, known);
    if Settles(c, s, e) {
      SettlingStep(c, s, e);
      SettleReads(c, s, e.w, FateBy(c, s, e), known');
    } else {
      StepClaims(c, s, e);
      if Flushes(e) {
        assert Apply(c, s, e).workers == s.workers;
      } else {
        QuietStep(c, s, e);
      }
    }
  }

  lemma {:induction false} RunReads(c: Config, s: State, es: seq<Event>, known: map<nat, Text>)
    requires Distinct(c.paths) && ReadInv(c, s, known) && Run(c, s, es)
    ensures ReadInv(c, Exec(c, s, es), known + TextsRead(c, s, es))
    decreases |es|
  {
    if es == [] {
      assert known + map[] == known;
    } else {
      StepReads(c, s, es[0], known);
      RunReads(c, Apply(c, s, es[0]), es[1..], Learn(c, s, es[0], known));
      ReadOnce(c, s, es[0], es[1..], known);
    }
  }

  /** A worker that holds document i has read it. */
  predicate PastAt(pc: Pc, i: nat) {
    Working(pc) && pc.index == i ==> pc.Putting? || pc.PutNap?
  }

  /** A document that has been read, or settled, is never read again. */
  ghost predicate PastReading(c: Config, s: State, i: nat) {
    i < s.nextIndex && forall w :: 0 <= w < |s.workers| ==> PastAt(s.workers[w], i)
  }

  lemma WorkerStaysPast(c: Config, s: State, e: Event, i: nat)
    requires WellFormed(c, s) && Enabled(s, e) && !Flushes(e) && i < s.nextIndex && PastAt(s.workers[e.w], i)
    ensures PastAt(Apply(c, s, e).workers[e.w], i) && i < Apply(c, s, e).nextIndex
    ensures e.ReadText? ==> s.workers[e.w].index != i
    ensures forall w :: 0 <= w < |s.workers| && w != e.w ==> Apply(c, s, e).workers[w] == s.workers[w]
  {
  }

  lemma StaysPastReading(c: Config, s: State, e: Event, i: nat)
    requires WellFormed(c, s) && Enabled(s, e) && PastReading(c, s, i)
    ensures PastReading(c, Apply(c, s, e), i)
    ensures e.ReadText? ==> s.workers[e.w].index != i
  {
    if Flushes(e) {
      assert Apply(c, s, e).workers == s.workers && Apply(c, s, e).nextIndex == s.nextIndex;
    } else {
      WorkerStaysPast(c, s, e, i);
    }
  }

  lemma {:induction false} NeverReadAgain(c: Config, s: State, es: seq<Event>, i: nat)
    requires Run(c, s, es) && PastReading(c, s, i)
    ensures i !in TextsRead(c, s, es)
    decreases |es|
  {
    if es == [] {
    } else {
      StaysPastReading(c, s, es[0], i);
      NeverReadAgain(c, Apply(c, s, es[0]), es[1..], i);
    }
  }

  lemma ReadingIsPast(c: Config, s: State, w: nat, t: Text)
    requires WellFormed(c, s) && Claims(c, s) && Enabled(s, ReadText(w, t))
    ensures PastReading(c, Apply(c, s, ReadText(w, t)), s.workers[w].index)
  {
    HeldOnce(c, s, w, w);
    var s' := Apply(c, s, ReadText(w, t));
    forall v | 0 <= v < |s'.workers|
      ensures PastAt(s'.workers[v], s.workers[w].index)
    {
      if v != w && Working(s'.workers[v]) {
        HeldOnce(c, s, v, w);
      }
    }
  }

  /** A text learnt now is not learnt again later, so the order does not matter. */
  lemma ReadOnce(c: Config, s: State, e: Event, rest: seq<Event>, known: map<nat, Text>)
    requires WellFormed(c, s) && Claims(c, s) && Enabled(s, e) && Run(c, Apply(c, s, e), rest)
    ensures var later := TextsRead(c, Apply(c, s, e), rest);
            Learn(c, s, e, known) + later == known + Learn(c, s, e, later)
  {
    if e.ReadText? {
      ReadingIsPast(c, s, e.w, e.text);
      NeverReadAgain(c, Apply(c, s, e), rest, s.workers[e.w].index);
    }
  }

  // ----- what exit code zero promises

  /** The manifest entry of a document that did not fail is that of the text read for it. */
  lemma {:induction false} EntryOfFate(c: Config, fates: map<nat, Fate>, i: nat, k: nat)
    requires Distinct(c.paths) && i < |c.paths| && k <= |c.paths|
    ensures var docs, p := DocsAfter(c, fates, k), c.paths[i];
            if i < k && i in fates && fates[i].Migrated?
              then p in docs && docs[p] == c.EntryOf(fates[i].text)
              else Lookup(docs, p) == Lookup(c.prior, p)
  {
    if k == 0 {
    } else {
      EntryOfFate(c, fates, i, k - 1);
      assert i != k - 1 ==> c.paths[i] != c.paths[k - 1];
    }
  }

  /** When nothing failed, the manifest holds the entry of the text read for every document. */
  lemma ManifestTellsTexts(c: Config, workers: nat, target: map<Path, Text>, disk: Disk, es: seq<Event>)
    requires Distinct(c.paths) && workers > 0 && Run(c, Init(c, workers, target, disk), es)
    requires var s := Exec(c, Init(c, workers, target, disk), es); AllDone(s) && !s.failed
    ensures var s, texts := Exec(c, Init(c, workers, target, disk), es), TextsRead(c, Init(c, workers, target, disk), es);
            forall i :: 0 <= i < |c.paths| ==>
              i in texts && c.paths[i] in s.docs && s.docs[c.paths[i]] == c.EntryOf(texts[i])
  {
    var s0, n := Init(c, workers, target, disk), |c.paths|;
    var s, texts := Exec(c, s0, es), TextsRead(c, s0, es);
    Conservation(c, workers, target, disk, es);
    CountersAlwaysAgree(c, workers, target, disk, es);
    InitClaims(c, workers, target, disk);
    DocsAfterInit(c, n);
    RunReads(c, s0, es, map[]);
    assert map[] + texts == texts;
    forall i | 0 <= i < n
      ensures i in texts && c.paths[i] in s.docs && s.docs[c.paths[i]] == c.EntryOf(texts[i])
    {
      assert i in s.fates && !s.fates[i].Failed?;
      assert Knows(texts, i, s.fates[i].text);
      EntryOfFate(c, s.fates, i, n);
    }
  }

  /** End to end: for any prior manifest, initial target, worker counts, schedule and failures, a
      non-dry run over distinct paths that exits with zero read every selected document, and the
      target's body of each has exactly the hash and size of the text this run read. */
  lemma EndToEnd(c: Config, workers: nat, target: map<Path, Text>, disk: Disk, es: seq<Event>,
                 keys: seq<Path>, verifiers: nat, vs: seq<V.Event>)
    requires Distinct(c.paths) && !c.dryRun && Completed(c, workers, target, disk, es, keys, verifiers, vs)
    requires var s := Exec(c, Init(c, workers, target, disk), es);
             ExitCode(c, s, V.Exec(V.Job(c, keys, s.docs, s.target), V.Init(verifiers), vs)) == 0
    ensures var s0 := Init(c, workers, target, disk);
            var s, texts := Exec(c, s0, es), TextsRead(c, s0, es);
            forall i :: 0 <= i < |c.paths| ==>
              && i in texts
              && c.paths[i] in s.target
              && c.EntryOf(s.target[c.paths[i]]) == c.EntryOf(texts[i])
  {
    var s := Exec(c, Init(c, workers, target, disk), es);
    var j := V.Job(c, keys, s.docs, s.target);
    ManifestTellsTexts(c, workers, target, disk, es);
    V.VerifyConservation(j, verifiers, vs);
    assert forall i :: 0 <= i < |c.paths| ==> V.Confirmed(j, c.paths[i]);
  }

  ghost predicate Injective(c: Config) {
    forall t, u :: c.EntryOf(t) == c.EntryOf(u) ==> t == u
  }

  /** With a hash and size that tell texts apart, and a source that did not change during the run,
      exit code zero means that the target equals the source on every selected path. */
  lemma TargetEqualsSource(c: Config, source: map<Path, Text>, workers: nat, target: map<Path, Text>, disk: Disk,
                           es: seq<Event>, keys: seq<Path>, verifiers: nat, vs: seq<V.Event>)
    requires Distinct(c.paths) && !c.dryRun && Injective(c)
    requires Completed(c, workers, target, disk, es, keys, verifiers, vs)
    requires CopyCrash.FixedRun(c, source, Init(c, workers, target, disk), es)
    requires var s := Exec(c, Init(c, workers, target, disk), es);
             ExitCode(c, s, V.Exec(V.Job(c, keys, s.docs, s.target), V.Init(verifiers), vs)) == 0
    ensures var s := Exec(c, Init(c, workers, target, disk), es);
            forall p :: p in c.paths ==> p in source && p in s.target && s.target[p] == source[p]
  {
    var s0 := Init(c, workers, target, disk);
    EndToEnd(c, workers, target, disk, es, keys, verifiers, vs);
    FixedTexts(c, source, s0, es);
    var s := Exec(c, s0, es);
    forall p | p in c.paths
      ensures p in source && p in s.target && s.target[p] == source[p]
    {
      var i :| 0 <= i < |c.paths| && c.paths[i] == p;
      assert i in TextsRead(c, s0, es);
    }
  }

  lemma {:induction false} FixedTexts(c: Config, source: map<Path, Text>, s: State, es: seq<Event>)
    requires CopyCrash.FixedRun(c, source, s, es)
    ensures forall i :: i in TextsRead(c, s, es) ==>
              i < |c.paths| && c.paths[i] in source && source[c.paths[i]] == TextsRead(c, s, es)[i]
    decreases |es|
  {
    if es == [] {
    } else {
      FixedTexts(c, source, Apply(c, s, es[0]), es[1..]);
    }
  }

  /** With the answers of source and target fixed, the exit code does not depend on the schedule, and
      it is zero exactly when no document fails and every manifest entry can be read back unchanged. */
  lemma ExitZeroIff(c: Config, plans: seq<Plan>, failures: seq<seq<bool>>, workers: nat, target: map<Path, Text>,
                    disk: Disk, es: seq<Event>, keys: seq<Path>, verifiers: nat, vs: seq<V.Event>)
    requires Distinct(c.paths) && !c.dryRun && Completed(c, workers, target, disk, es, keys, verifiers, vs)
    requires PlansOk(c, plans) && FollowingRun(c, plans, Init(c, workers, target, disk), es)
    requires var r := Pass(c, plans, target, |c.paths|);
             var j := V.Job(c, keys, r.docs, r.target);
             && j.Valid() && V.FailuresOk(j, failures)
             && V.FollowingRun(j, failures, V.Init(verifiers), vs) && V.AllDone(V.Exec(j, V.Init(verifiers), vs))
    ensures var s := Exec(c, Init(c, workers, target, disk), es);
            var r := Pass(c, plans, target, |c.paths|);
            var j := V.Job(c, keys, r.docs, r.target);
            ExitCode(c, s, V.Exec(j, V.Init(verifiers), vs)) == 0 <==>
              && (forall i :: 0 <= i < |c.paths| ==> !FateOf(c, i, plans[i]).Failed?)
              && (forall i :: 0 <= i < |keys| ==> V.Classify(j, failures, i).Verified?)
  {
    CopySchedule.EveryScheduleIsThePass(c, plans, workers, target, disk, es);
    var r := Pass(c, plans, target, |c.paths|);
    var j := V.Job(c, keys, r.docs, r.target);
    V.EveryScheduleIsThePass(j, failures, verifiers, vs);
    V.CleanPass(j, failures, |keys|);
    PassFails(c, plans, target, |c.paths|);
  }

  lemma {:induction false} PassFails(c: Config, plans: seq<Plan>, target: map<Path, Text>, k: nat)
    requires PlansOk(c, plans) && k <= |c.paths|
    ensures Pass(c, plans, target, k).failed <==> exists i :: 0 <= i < k && FateOf(c, i, plans[i]).Failed?
  {
    if k == 0 {
    } else {
      PassFails(c, plans, target, k - 1);
      ProcessFields(c, Pass(c, plans, target, k - 1), k - 1, plans[k - 1]);
    }
  }

  /** Verify-only mode exits with zero only if the target confirms every entry of the manifest. */
  lemma VerifyOnlyIsSound(j: V.Job, verifiers: nat, vs: seq<V.Event>)
    requires verifiers > 0 && V.Run(j, V.Init(verifiers), vs) && V.AllDone(V.Exec(j, V.Init(verifiers), vs))
    requires VerifyOnlyExitCode(V.Exec(j, V.Init(verifiers), vs)) == 0
    ensures forall p :: p in j.docs ==> V.Confirmed(j, p)
  {
    V.VerifyConservation(j, verifiers, vs);
  }

  /** Verify-only mode exits with zero exactly when every entry is verified, and with one otherwise. */
  lemma VerifyOnlyIff(j: V.Job, verifiers: nat, vs: seq<V.Event>)
    requires verifiers > 0 && V.Run(j, V.Init(verifiers), vs) && V.AllDone(V.Exec(j, V.Init(verifiers), vs))
    ensures var s := V.Exec(j, V.Init(verifiers), vs);
            && (VerifyOnlyExitCode(s) == 0 <==> AllVerified(s, |j.paths|))
            && (VerifyOnlyExitCode(s) == 0 || VerifyOnlyExitCode(s) == 1)
  {
    CleanIff(j, verifiers, vs);
  }

  /** Every entry of the manifest got the verdict verified. */
  predicate AllVerified(s: V.State, n: nat) {
    forall i: nat :: i < n ==> i in s.verdicts && s.verdicts[i] == V.Verified
  }

  lemma CleanIff(j: V.Job, verifiers: nat, vs: seq<V.Event>)
    requires verifiers > 0 && V.Run(j, V.Init(verifiers), vs) && V.AllDone(V.Exec(j, V.Init(verifiers), vs))
    ensures var s := V.Exec(j, V.Init(verifiers), vs);
            s.mismatch == 0 && s.missing == 0 <==> AllVerified(s, |j.paths|)
  {
    var s := V.Exec(j, V.Init(verifiers), vs);
    V.InitInv(j, verifiers);
    V.RunInv(j, V.Init(verifiers), vs);
    V.AllJudged(j, s);
    SumOverZero(s.verdicts, V.IsMismatch, |j.paths|);
    SumOverZero(s.verdicts, V.IsMissing, |j.paths|);
  }

  /** No document failed. */
  predicate NoneFailed(fates: map<nat, Fate>) {
    forall i :: i in fates ==> !fates[i].Failed?
  }

  lemma FailedIff(c: Config, workers: nat, target: map<Path, Text>, disk: Disk, es: seq<Event>)
    requires workers > 0 && Run(c, Init(c, workers, target, disk), es) && AllDone(Exec(c, Init(c, workers, target, disk), es))
    ensures Exec(c, Init(c, workers, target, disk), es).failed <==> !NoneFailed(Exec(c, Init(c, workers, target, disk), es).fates)
  {
    CountersAlwaysAgree(c, workers, target, disk, es);
    Conservation(c, workers, target, disk, es);
  }

  // ----- resuming a finished run

  /** A run resumed from the manifest of a complete one, over a source that has not changed, skips every
      document it can read, and writes nothing. */
  lemma ResumeAfterCompleteSkipsAll(c: Config, source: map<Path, Text>, workers: nat, target: map<Path, Text>, disk: Disk,
                                    es: seq<Event>, again: Config, workers': nat, target': map<Path, Text>, es': seq<Event>)
    requires Distinct(c.paths) && workers > 0 && CopyCrash.FixedRun(c, source, Init(c, workers, target, disk), es)
    requires var s := Exec(c, Init(c, workers, target, disk), es);
             && AllDone(s) && !s.failed
             && again.prior == s.docs && again.resume && again.paths == c.paths
             && again.sha256 == c.sha256 && again.byteLength == c.byteLength
             && CopyCrash.FixedRun(again, source, Init(again, workers', target', Whole(s.docs)), es')
    ensures var docs := Exec(c, Init(c, workers, target, disk), es).docs;
            var s' := Exec(again, Init(again, workers', target', Whole(docs)), es');
            && s'.target == target'
            && forall i :: i in s'.fates && !s'.fates[i].Failed? ==> s'.fates[i].Skipped?
  {
    var s0 := Init(c, workers, target, disk);
    var docs := Exec(c, s0, es).docs;
    ManifestTellsTexts(c, workers, target, disk, es);
    FixedTexts(c, source, s0, es);
    forall i | 0 <= i < |again.paths| && again.paths[i] in source
      ensures Unchanged(again, i, source[again.paths[i]])
    {
      assert i in TextsRead(c, s0, es);
    }
    PrimedRun(again, source, Init(again, workers', target', Whole(docs)), es');
  }
}
