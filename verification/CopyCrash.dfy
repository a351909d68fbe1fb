/** Crash safety of the migrator: what a manifest left behind by a crash may be trusted for. */
module CopyCrash {
  import opened CopyMachine

  /** The target holds a document with the recorded hash and size. */
  predicate Copied(c: Config, target: map<Path, Text>, p: Path, e: Entry) {
    p in target && c.EntryOf(target[p]) == e
  }

  /** Every entry names a copied document, and none contradicts the source. */
  ghost predicate SoundDocs(c: Config, source: map<Path, Text>, target: map<Path, Text>, docs: map<Path, Entry>) {
    forall p :: p in docs ==> Copied(c, target, p, docs[p]) && (p in source ==> docs[p] == c.EntryOf(source[p]))
  }

  ghost predicate SoundDisk(c: Config, source: map<Path, Text>, target: map<Path, Text>, disk: Disk) {
    disk.Whole? ==> SoundDocs(c, source, target, disk.docs)
  }

  /** The source does not change: a read that returns a text returns the one text of its path. */
  predicate FixedRead(c: Config, source: map<Path, Text>, s: State, e: Event)
    requires WellFormed(c, s) && Enabled(s, e)
  {
    e.ReadText? ==>
      var p := c.paths[s.workers[e.w].index];
      p in source && source[p] == e.text
  }

  predicate FixedRun(c: Config, source: map<Path, Text>, s: State, es: seq<Event>)
    decreases |es|
  {
    && Run(c, s, es)
    && (es != [] ==> FixedRead(c, source, s, es[0]) && FixedRun(c, source, Apply(c, s, es[0]), es[1..]))
  }

  /** A put carries the source's text, and once it has landed the target holds that text. */
  predicate PutOk(c: Config, source: map<Path, Text>, target: map<Path, Text>, pc: Pc)
    requires PcOk(c, pc)
  {
    pc.Putting? || pc.PutNap? ==>
      var p := c.paths[pc.index];
      && p in source && source[p] == pc.text
      && (pc.Putting? && pc.landed ==> p in target && target[p] == pc.text)
  }

  /** A document was skipped only because the target already holds the text just read. */
  predicate SkipOk(c: Config, source: map<Path, Text>, target: map<Path, Text>, p: Path, f: Fate) {
    f.Skipped? ==> p in source && source[p] == f.text && Copied(c, target, p, c.EntryOf(f.text))
  }

  ghost predicate CrashInv(c: Config, source: map<Path, Text>, s: State) {
    && WellFormed(c, s)
    && SoundDocs(c, source, s.target, s.docs)
    && SoundDocs(c, source, s.target, c.prior)
    && SoundDisk(c, source, s.target, s.disk)
    && (forall j :: 0 <= j < |s.flushes| && !s.flushes[j].Queued?
                    ==> SoundDocs(c, source, s.target, s.flushes[j].snapshot))
    && (forall w :: 0 <= w < |s.workers| ==> PutOk(c, source, s.target, s.workers[w]))
    && (forall i :: 0 <= i < |c.paths| && i in s.fates ==> SkipOk(c, source, s.target, c.paths[i], s.fates[i]))
  }

  /** Writing the source's own text over a document cannot make a sound entry unsound. */
  lemma LandingKeepsDocs(c: Config, source: map<Path, Text>, target: map<Path, Text>, p: Path, docs: map<Path, Entry>)
    requires p in source && SoundDocs(c, source, target, docs)
    ensures SoundDocs(c, source, target[p := source[p]], docs)
  {
  }

  lemma LandStep(c: Config, source: map<Path, Text>, s: State, w: nat)
    requires Enabled(s, PutLands(w)) && CrashInv(c, source, s)
    ensures CrashInv(c, source, Apply(c, s, PutLands(w)))
  {
    var p := c.paths[s.workers[w].index];
    assert PutOk(c, source, s.target, s.workers[w]);
    LandingKeepsDocs(c, source, s.target, p, s.docs);
    LandingKeepsDocs(c, source, s.target, p, c.prior);
    if s.disk.Whole? {
      LandingKeepsDocs(c, source, s.target, p, s.disk.docs);
    }
    var s' := Apply(c, s, PutLands(w));
    forall j | 0 <= j < |s'.flushes| && !s'.flushes[j].Queued?
      ensures SoundDocs(c, source, s'.target, s'.flushes[j].snapshot)
    {
      LandingKeepsDocs(c, source, s.target, p, s.flushes[j].snapshot);
    }
    forall v | 0 <= v < |s'.workers|
      ensures PutOk(c, source, s'.target, s'.workers[v])
    {
      assert PutOk(c, source, s.target, s.workers[v]);
    }
    forall i | 0 <= i < |c.paths| && i in s'.fates
      ensures SkipOk(c, source, s'.target, c.paths[i], s'.fates[i])
    {
      assert SkipOk(c, source, s.target, c.paths[i], s.fates[i]);
    }
  }

  lemma SettleStep(c: Config, source: map<Path, Text>, s: State, w: nat, fate: Fate)
    requires CrashInv(c, source, s) && w < |s.workers| && Working(s.workers[w])
    requires var p := c.paths[s.workers[w].index];
             && SkipOk(c, source, s.target, p, fate)
             && (fate.Migrated? ==> p in source && source[p] == fate.text && p in s.target && s.target[p] == fate.text)
    ensures CrashInv(c, source, Settle(c, s, w, fate))
  {
    var s' := Settle(c, s, w, fate);
    forall j | 0 <= j < |s'.flushes| && !s'.flushes[j].Queued?
      ensures SoundDocs(c, source, s'.target, s'.flushes[j].snapshot)
    {
      assert j < |s.flushes| && s'.flushes[j] == s.flushes[j];
    }
    forall v | 0 <= v < |s'.workers|
      ensures PutOk(c, source, s'.target, s'.workers[v])
    {
      assert PutOk(c, source, s.target, s.workers[v]);
    }
  }

  lemma FlushStep(c: Config, source: map<Path, Text>, s: State, e: Event)
    requires Enabled(s, e) && Flushes(e) && CrashInv(c, source, s)
    ensures CrashInv(c, source, Apply(c, s, e))
  {
    var s' := Apply(c, s, e);
    forall j | 0 <= j < |s'.flushes| && !s'.flushes[j].Queued?
      ensures SoundDocs(c, source, s'.target, s'.flushes[j].snapshot)
    {
      assert j != e.job ==> s'.flushes[j] == s.flushes[j];
    }
    assert s'.workers == s.workers && s'.target == s.target;
  }

  lemma ParkStep(c: Config, source: map<Path, Text>, s: State, w: nat, pc: Pc, nextIndex: nat)
    requires CrashInv(c, source, s) && w < |s.workers| && PcOk(c, pc) && PutOk(c, source, s.target, pc)
    ensures CrashInv(c, source, Park(s, w, pc).(nextIndex := nextIndex))
  {
  }

  lemma StepSound(c: Config, source: map<Path, Text>, s: State, e: Event)
    requires Enabled(s, e) && CrashInv(c, source, s) && !c.dryRun && FixedRead(c, source, s, e)
    ensures CrashInv(c, source, Apply(c, s, e))
  {
    if Flushes(e) {
      FlushStep(c, source, s, e);
    } else {
      assert PutOk(c, source, s.target, s.workers[e.w]);
      var s' := Apply(c, s, e);
      if e.PutLands? {
        LandStep(c, source, s, e.w);
      } else if Settles(c, s, e) {
        SettlingStep(c, s, e);
        SettleStep(c, source, s, e.w, FateBy(c, s, e));
      } else {
        ParkStep(c, source, s, e.w, s'.workers[e.w], s'.nextIndex);
        assert s' == Park(s, e.w, s'.workers[e.w]).(nextIndex := s'.nextIndex);
      }
    }
  }

  lemma {:induction false} RunSound(c: Config, source: map<Path, Text>, s: State, es: seq<Event>)
    requires FixedRun(c, source, s, es) && CrashInv(c, source, s) && !c.dryRun
    ensures CrashInv(c, source, Exec(c, s, es))
    decreases |es|
  {
    if es == [] {
    } else {
      StepSound(c, source, s, es[0]);
      RunSound(c, source, Apply(c, s, es[0]), es[1..]);
    }
  }

  /** In every state a non-dry run can reach from a sound, absent or unparsable manifest, every entry
      of `manifest.docs` and of the file on disk names a document the target holds with that hash. */
  lemma AlwaysSound(c: Config, source: map<Path, Text>, workers: nat, target: map<Path, Text>, disk: Disk, es: seq<Event>)
    requires SoundDisk(c, source, target, disk) && c.prior == PriorDocs(c.resume, disk) && !c.dryRun
    requires FixedRun(c, source, Init(c, workers, target, disk), es)
    ensures var s := Exec(c, Init(c, workers, target, disk), es);
            && SoundDocs(c, source, s.target, s.docs)
            && SoundDisk(c, source, s.target, s.disk)
            && (forall i :: 0 <= i < |c.paths| && i in s.fates ==> SkipOk(c, source, s.target, c.paths[i], s.fates[i]))
  {
    RunSound(c, source, Init(c, workers, target, disk), es);
  }

  // ----- whole campaigns of crashed and resumed runs

  /** Where a run was when it stopped: it crashed while copying, while main wrote the last manifest,
      or after that. */
  datatype Ending = WhileCopying | InFinalWrite | AfterFinalWrite

  datatype Session = Session(config: Config, workers: nat, events: seq<Event>, ending: Ending)

  function DiskAtEnd(s: State, ending: Ending): Disk {
    match ending
    case WhileCopying => s.disk
    case InFinalWrite => Torn
    case AfterFinalWrite => Whole(s.docs)
  }

  /** Each session is a non-dry run over the same source that starts from the file and the target the
      one before it left, with its own selection, worker count, retry bound and resume flag. */
  ghost predicate Campaign(c: Config, source: map<Path, Text>, target: map<Path, Text>, disk: Disk, runs: seq<Session>)
    decreases |runs|
  {
    runs != [] ==>
      var r := runs[0];
      var s0 := Init(r.config, r.workers, target, disk);
      && r.config.sha256 == c.sha256 && r.config.byteLength == c.byteLength
      && !r.config.dryRun && r.config.prior == PriorDocs(r.config.resume, disk)
      && FixedRun(r.config, source, s0, r.events)
      && var s := Exec(r.config, s0, r.events);
         && (!r.ending.WhileCopying? ==> AllDone(s) && ChainResolved(s))
         && Campaign(c, source, s.target, DiskAtEnd(s, r.ending), runs[1..])
  }

  ghost function CampaignEnd(c: Config, source: map<Path, Text>, target: map<Path, Text>, disk: Disk,
                             runs: seq<Session>): (map<Path, Text>, Disk)
    requires Campaign(c, source, target, disk, runs)
    decreases |runs|
  {
    if runs == [] then (target, disk)
    else
      var r := runs[0];
      var s := Exec(r.config, Init(r.config, r.workers, target, disk), r.events);
      CampaignEnd(c, source, s.target, DiskAtEnd(s, r.ending), runs[1..])
  }

  lemma SameEntries(c: Config, c': Config, source: map<Path, Text>, target: map<Path, Text>, disk: Disk)
    requires c'.sha256 == c.sha256 && c'.byteLength == c.byteLength
    ensures SoundDisk(c, source, target, disk) <==> SoundDisk(c', source, target, disk)
  {
    assert forall t :: c.EntryOf(t) == c'.EntryOf(t);
  }

  /** However many runs crash, at whatever step, the manifest on disk stays trustworthy. */
  lemma {:induction false} CampaignStaysSound(c: Config, source: map<Path, Text>, target: map<Path, Text>, disk: Disk,
                                              runs: seq<Session>)
    requires SoundDisk(c, source, target, disk) && Campaign(c, source, target, disk, runs)
    ensures var (target', disk') := CampaignEnd(c, source, target, disk, runs);
            SoundDisk(c, source, target', disk')
    decreases |runs|
  {
    if runs == [] {
    } else {
      var r := runs[0];
      var s := Exec(r.config, Init(r.config, r.workers, target, disk), r.events);
      SameEntries(c, r.config, source, target, disk);
      AlwaysSound(r.config, source, r.workers, target, disk, r.events);
      SameEntries(c, r.config, source, s.target, DiskAtEnd(s, r.ending));
      CampaignStaysSound(c, source, s.target, DiskAtEnd(s, r.ending), runs[1..]);
    }
  }

  /** A run resumed after any campaign skips only documents whose source text the target already
      holds, up to hash and size. */
  lemma ResumeSkipsOnlyCopied(c: Config, source: map<Path, Text>, target: map<Path, Text>, disk: Disk,
                              runs: seq<Session>, workers: nat, es: seq<Event>)
    requires SoundDisk(c, source, target, disk) && Campaign(c, source, target, disk, runs) && !c.dryRun
    requires var (target', disk') := CampaignEnd(c, source, target, disk, runs);
             && c.prior == PriorDocs(c.resume, disk')
             && FixedRun(c, source, Init(c, workers, target', disk'), es)
    ensures var (target', disk') := CampaignEnd(c, source, target, disk, runs);
            var s := Exec(c, Init(c, workers, target', disk'), es);
            forall i :: 0 <= i < |c.paths| && i in s.fates && s.fates[i].Skipped? ==>
              var p := c.paths[i];
              p in source && Copied(c, s.target, p, c.EntryOf(source[p]))
  {
    var (target', disk') := CampaignEnd(c, source, target, disk, runs);
    CampaignStaysSound(c, source, target, disk, runs);
    AlwaysSound(c, source, workers, target', disk', es);
    var s := Exec(c, Init(c, workers, target', disk'), es);
    assert forall i :: 0 <= i < |c.paths| && i in s.fates ==> SkipOk(c, source, s.target, c.paths[i], s.fates[i]);
  }

  // ----- where soundness ends

  ghost predicate AllCopied(c: Config, target: map<Path, Text>, docs: map<Path, Entry>) {
    forall p :: p in docs ==> Copied(c, target, p, docs[p])
  }

  /** A put that takes effect leaves the manifest true exactly when no entry for its path says
      otherwise. */
  lemma LandingIsSafeIff(c: Config, s: State, w: nat)
    requires WellFormed(c, s) && Enabled(s, PutLands(w)) && AllCopied(c, s.target, s.docs)
    ensures var pc := s.workers[w];
            var s' := Apply(c, s, PutLands(w));
            AllCopied(c, s'.target, s'.docs)
            <==> (c.paths[pc.index] in s.docs ==> s.docs[c.paths[pc.index]] == c.EntryOf(pc.text))
  {
    var p, s' := c.paths[s.workers[w].index], Apply(c, s, PutLands(w));
    assert s'.docs == s.docs;
    if p in s.docs {
      assert Copied(c, s'.target, p, s.docs[p]) <==> s.docs[p] == c.EntryOf(s.workers[w].text);
    }
    forall q | q in s.docs && q != p
      ensures Copied(c, s'.target, q, s'.docs[q])
    {
      assert Copied(c, s.target, q, s.docs[q]);
    }
  }

  /** Recording a migrated document leaves the manifest true exactly when the target holds it. */
  lemma RecordingIsSafeIff(c: Config, s: State, w: nat, t: Text)
    requires WellFormed(c, s) && w < |s.workers| && Working(s.workers[w]) && AllCopied(c, s.target, s.docs)
    ensures var s' := Settle(c, s, w, Migrated(t));
            AllCopied(c, s'.target, s'.docs) <==> Copied(c, s.target, c.paths[s.workers[w].index], c.EntryOf(t))
  {
    var p, s' := c.paths[s.workers[w].index], Settle(c, s, w, Migrated(t));
    assert p in s'.docs && s'.docs[p] == c.EntryOf(t);
    forall q | q in s.docs && q != p
      ensures Copied(c, s'.target, q, s'.docs[q])
    {
      assert Copied(c, s.target, q, s.docs[q]);
    }
  }

  /** With a source that changes and changes back, a crash makes a sound manifest lie, and the run
      resumed after it skips a document the target does not hold. */
  lemma ChangingSourceBreaksResume(c: Config)
    requires c.paths == ["/a"] && c.resume && !c.dryRun && c.attempts >= 1
    requires c.prior == map["/a" := c.EntryOf("old")] && c.EntryOf("old") != c.EntryOf("new")
    ensures var crashed := [Claim(0), ReadText(0, "new"), PutLands(0)];
            var resumed := [Claim(0), ReadText(0, "old")];
            var s0 := Init(c, 1, map["/a" := "old"], Whole(c.prior));
            && AllCopied(c, s0.target, s0.docs)
            && Run(c, s0, crashed)
            && var s1 := Exec(c, s0, crashed);
               && s1.disk == Whole(c.prior) && !AllCopied(c, s1.target, c.prior)
               && Run(c, Init(c, 1, s1.target, s1.disk), resumed)
               && var s2 := Exec(c, Init(c, 1, s1.target, s1.disk), resumed);
                  s2.fates == map[0 := Skipped("old")] && s2.target == map["/a" := "new"]
  {
    CrashAfterLanding(c, "old", "new");
    SkipsByManifest(c, "old", map["/a" := "new"]);
    assert !Copied(c, map["/a" := "new"], "/a", c.prior["/a"]);
  }

  lemma CrashAfterLanding(c: Config, before: Text, after: Text)
    requires c.paths == ["/a"] && c.resume && !c.dryRun && c.attempts >= 1
    requires c.prior == map["/a" := c.EntryOf(before)] && c.EntryOf(before) != c.EntryOf(after)
    ensures var es := [Claim(0), ReadText(0, after), PutLands(0)];
            var s0 := Init(c, 1, map["/a" := before], Whole(c.prior));
            && Run(c, s0, es)
            && Exec(c, s0, es).target == map["/a" := after] && Exec(c, s0, es).disk == Whole(c.prior)
  {
    var s0 := Init(c, 1, map["/a" := before], Whole(c.prior));
    var s1 := Apply(c, s0, Claim(0));
    var s2 := Apply(c, s1, ReadText(0, after));
    var s3 := Apply(c, s2, PutLands(0));
    assert Run(c, s3, []);
    ExecCons(c, s2, PutLands(0), []);
    ExecCons(c, s1, ReadText(0, after), [PutLands(0)]);
    ExecCons(c, s0, Claim(0), [ReadText(0, after), PutLands(0)]);
    assert [PutLands(0)] + [] == [PutLands(0)];
    assert [ReadText(0, after)] + [PutLands(0)] == [ReadText(0, after), PutLands(0)];
    assert [Claim(0)] + [ReadText(0, after), PutLands(0)] == [Claim(0), ReadText(0, after), PutLands(0)];
  }

  /** A resumed run trusts its manifest whatever the target holds. */
  lemma SkipsByManifest(c: Config, t: Text, target: map<Path, Text>)
    requires c.paths == ["/a"] && c.resume && c.attempts >= 1 && c.prior == map["/a" := c.EntryOf(t)]
    ensures var es := [Claim(0), ReadText(0, t)];
            var s0 := Init(c, 1, target, Whole(c.prior));
            && Run(c, s0, es)
            && Exec(c, s0, es).fates == map[0 := Skipped(t)] && Exec(c, s0, es).target == target
  {
    var s0 := Init(c, 1, target, Whole(c.prior));
    var s1 := Apply(c, s0, Claim(0));
    var s2 := Apply(c, s1, ReadText(0, t));
    assert Run(c, s2, []);
    ExecCons(c, s1, ReadText(0, t), []);
    ExecCons(c, s0, Claim(0), [ReadText(0, t)]);
    assert [ReadText(0, t)] + [] == [ReadText(0, t)];
    assert [Claim(0)] + [ReadText(0, t)] == [Claim(0), ReadText(0, t)];
  }

  /** A dry run records entries it never writes: resuming from its manifest skips a document that is
      nowhere in the target. Verification is what catches it. */
  lemma DryManifestBreaksResume(dry: Config, wet: Config, t: Text)
    requires dry.paths == ["/a"] && !dry.resume && dry.dryRun && dry.attempts >= 1 && dry.prior == map[]
    requires wet.paths == ["/a"] && wet.resume && !wet.dryRun && wet.attempts >= 1
    requires wet.prior == map["/a" := dry.EntryOf(t)] && wet.EntryOf(t) == dry.EntryOf(t)
    ensures var es := [Claim(0), ReadText(0, t)];
            && Run(dry, Init(dry, 1, map[], Absent), es)
            && Exec(dry, Init(dry, 1, map[], Absent), es).docs == wet.prior
            && Run(wet, Init(wet, 1, map[], Whole(wet.prior)), es)
            && var s := Exec(wet, Init(wet, 1, map[], Whole(wet.prior)), es);
               s.fates == map[0 := Skipped(t)] && s.target == map[]
  {
    var s0 := Init(dry, 1, map[], Absent);
    var s1 := Apply(dry, s0, Claim(0));
    var s2 := Apply(dry, s1, ReadText(0, t));
    assert Run(dry, s2, []);
    ExecCons(dry, s1, ReadText(0, t), []);
    ExecCons(dry, s0, Claim(0), [ReadText(0, t)]);
    assert [ReadText(0, t)] + [] == [ReadText(0, t)];
    assert [Claim(0)] + [ReadText(0, t)] == [Claim(0), ReadText(0, t)];
    SkipsByManifest(wet, t, map[]);
  }
}
