# Verification of the Kikx operations scripts

This project models the scripts of Kikx that carry real algorithms and state, and proves what they are
relied on for. `dafny verify dfyconfig.toml` checks all of it.

## What is modelled

**The database migrator** (`scripts/migrate-database.mjs`). A pool of workers claims documents from a
shared counter; each reads its document, may skip it because of a manifest from an earlier run, writes
it with retries and records it, and a chain of manifest writes runs beside them. `CopyMachine` is this
pool as a step system: a worker is a program counter split at every `await`, and every choice that the
program does not make itself (the next step, what a read returns, whether a put takes effect, whether it
reports success, when a manifest write truncates, ends or fails) is an event that an adversary picks. A
crash is a run that stops. The hash and the byte length are uninterpreted functions. `VerifyMachine` is
the second pool, which reads the target back. `Migration` holds the same two pools as objects that update
their fields in place, each method proved to take exactly one step of the step system, and runs both from
start to exit code. `CopyOutcomes` says what a run comes to, document by document. `WorkerPool` is the claiming that both
pools share, `Retry` is `withRetry` alone.

The results: with exit code zero, the target's body of every selected document has the hash and size of
the text that this run read, whatever the prior manifest, the target, the schedule and the failures
(`EndToEnd`, and `Migrate` for the object); every entry of every manifest on disk can be trusted after
any number of crashes (`CampaignStaysSound`), as long as the source does not change and no run was dry,
and two lemmas show that neither condition can be dropped; every interleaving ends like one sequential
pass (`EveryScheduleIsThePass`, twice); documents are claimed exactly once and the counters are conserved
(`Conservation`); manifest writes never overlap and only grow (`WritesNeverOverlap`,
`OnDiskManifestsGrow`, `FinalWriteIsComplete`); and every run of either pool ends (`RunsAreBounded` and
`StuckMeansFinished`, twice).

**The supervisors.** `DevWatch` is `scripts/dev-watch.mjs` as a step system in which restart, debounce,
shutdown, child exits and signals interleave at every `await`; `Supervisor` is the same as an object.
`StartDev` and `DevStack` do this for `scripts/start-dev.mjs`, with `ParentMonitor` for
`scripts/parent-exit-monitor.mjs`. `WatchFiles` is the pruned walk over the watched tree and the text
that stands for its state; the walk is proved against an unpruned walk followed by the filter, and the
text is proved to determine the whole snapshot.

**Links, arguments and sessions.** `LoginLink` and `PercentCoding` are the printed login link, its
extraction from a coloured log and the wait for it; a string is a sequence of Unicode scalar values.
`SessionArgs`, `SessionRows` and `SessionView` are the argument parser, the queries and the decoration of
`scripts/opencode-session.mjs`.

**The test gate.** `TestLanes` gives the lane table, the usual meaning of `*` and `**`, and lane
selection; `TestGate` the reporter parser, one lane's run and the exit code.

`Prelude`, `Sorting` and `Strings` hold what several modules share.

## Where the code falls short of its comments, its usage text or its purpose

The model follows the code. Each of these is a proved lemma.

- A lane that ran nothing is said to be unable to pass (`scripts/run-test-lanes.mjs:20-24`). It passes
  exactly when it exits 0 unsignalled and its output has no test count, or one that is exceeded by what
  was skipped and failed: `HollowLanePassesIff`, with `SilentLanesAreGreen` and `OvercountedLaneIsGreen`
  for the two ways.
- `--head` and `--tail` are offered beside `--since` and `--until` (`scripts/opencode-session.mjs:24-27`);
  with a window given neither has an effect. `HeadCountsIff`, `TailCountsIff`.
- A printed link gives its code back unless the code has an apostrophe, where extraction stops.
  `LinkRoundTripIff`.
- A log line that is still being written yields a wrong code exactly when it breaks off between two
  characters of the code, and an error exactly when it breaks off inside an escape sequence.
  `CutLineIff`, with `EveryPrefixCanComeBack` and `EscapeCanBeCut`.
- A negative `--text` or `--tool` makes the truncation notice count wrongly. `NoticeIsRightIff`.
- dev-watch records the fingerprint of a first start and of a crash restart only when the child is ready,
  so a change made while it starts is recorded as seen and never acted on. `RecordedAcrossStartIff` says
  when, `FirstStartCanMissChange` and `CrashRestartCanMissChange` what follows.
- dev-watch can spawn one more child after shutdown began, `SpawnAfterShutdownIff`; only the 'exit'
  handler ever signals it, `LateChildIsLeftToExit`.
- dev-watch watches nothing in a checkout below a directory with an ignored name.
  `DefaultCheckoutIsBlindIff`.
- Both supervisors leave running children behind when a signal they do not handle ends them; start-dev
  also when its startup throws or a signal arrives before its handlers are installed. `AbandonsIff` in
  `DevWatch` and in `StartDev` gives the exact condition among the modelled events; `AbandonedChild` and
  `StartupErrorAbandons` show it happening.
- A fingerprint is faithful for paths without line breaks, and fails for a path with one that spells the
  lines of two others. `FingerprintIsFaithful`, `LineBreaksConfuse`.

## Model

| member | source | states |
|---|---|---|
| WorkerPool.ClaimKeepsPool | scripts/migrate-database.mjs:239-241 | taking the shared counter keeps every claimed index settled or held by exactly one worker |
| WorkerPool.SettleKeepsPool | scripts/migrate-database.mjs:238-276 | a worker that is done with its document leaves the claims intact, and had the only claim on it |
| WorkerPool.FinishedPool | scripts/migrate-database.mjs:238-241 | when all workers have returned, exactly the indices below n were dealt with and the counter is n plus the worker count |
| CopyMachine.StepClaims | scripts/migrate-database.mjs:238-276 | every step keeps the claims, and a document that settles had not settled before |
| CopyMachine.HeldOnce | scripts/migrate-database.mjs:239-243 | two workers never hold the same document, and a held one has not settled |
| CopyCounts.CountersAlwaysAgree | scripts/migrate-database.mjs:255-275 | in every reachable state processed = migrated + skipped, one write was queued per 500 processed, and failed is set exactly when a document failed |
| CopyCounts.Conservation | scripts/migrate-database.mjs:160-182 | at the end every document ended exactly once, migrated + skipped + failed = n, the counter is n plus the worker count, bytes is the size of what was migrated |
| CopyCounts.StepBurns | scripts/migrate-database.mjs:225-277 | every step uses up a bounded supply of fuel |
| CopyCounts.RunsAreBounded | scripts/migrate-database.mjs:225-277 | no run is longer than its fuel, for any workers, schedule and failures |
| CopyCounts.StuckMeansFinished | scripts/migrate-database.mjs:171-182 | a run that cannot go on has finished: all workers returned, and the write chain was written out or broke at a rejected write |
| CopyFlushes.WritesNeverOverlap | scripts/migrate-database.mjs:270-271 | at most one manifest write is under way, and the file holds the last complete snapshot or is torn by an unfinished write |
| CopyFlushes.HistoryIsCompleted | scripts/migrate-database.mjs:402-404 | the manifests that were on disk are exactly the snapshots of the completed links of the chain, in order |
| CopyFlushes.OnDiskManifestsGrow | scripts/migrate-database.mjs:266-271 | of two manifests on disk the later lists every path of the earlier |
| CopyFlushes.FinalWriteIsComplete | scripts/migrate-database.mjs:182-198 | once the chain has resolved, exactly processed / 500 manifests were written, and the last write lists every processed path and everything listed before |
| CopyFlushes.ManifestOnDiskIsWhole | scripts/migrate-database.mjs:266-271 | a manifest write that is carried out leaves on disk exactly the entries of the moment it began, among them every document that had settled without failure |
| CopyCrash.AlwaysSound | scripts/migrate-database.mjs:245-271 | in every reachable state of a non-dry run over a fixed source each entry of the manifest and of the file names a document the target holds with that hash |
| CopyCrash.CampaignStaysSound | scripts/migrate-database.mjs:128-143 | this survives any number of runs that crash at any step, also during the last write, and are resumed |
| CopyCrash.ResumeSkipsOnlyCopied | scripts/migrate-database.mjs:252-256 | a run resumed after that skips only documents the target already holds |
| CopyCrash.LandingIsSafeIff | scripts/migrate-database.mjs:258-259 | a put that takes effect keeps the manifest true exactly when no entry for its path says otherwise |
| CopyCrash.RecordingIsSafeIff | scripts/migrate-database.mjs:261-263 | recording a document keeps the manifest true exactly when the target holds it |
| CopyCrash.ChangingSourceBreaksResume | scripts/migrate-database.mjs:252-261 | a source that changes and changes back makes a resumed run skip a document the target does not hold |
| CopyCrash.DryManifestBreaksResume | scripts/migrate-database.mjs:258-261 | resuming from the manifest of a dry run skips a document that is nowhere in the target |
| CopySchedule.EveryScheduleIsThePass | scripts/migrate-database.mjs:160-182 | with the answers fixed per document and attempt, every interleaving of any workers ends with the target, manifest and counters of one sequential pass |
| VerifyMachine.VerifyConservation | scripts/migrate-database.mjs:289-334 | verified + mismatch + missing is the number of entries, and a clean result means the target confirms every entry |
| VerifyMachine.RunsAreBounded | scripts/migrate-database.mjs:294-328 | no verification is longer than its fuel, for any workers, schedule and failures |
| VerifyMachine.StuckMeansFinished | scripts/migrate-database.mjs:327-328 | a verification that cannot go on has finished |
| VerifyMachine.CleanPass | scripts/migrate-database.mjs:303-324 | the result is clean exactly when every entry can be read and matches |
| VerifyMachine.VerdictsIff | scripts/migrate-database.mjs:303-324 | in every complete interleaving an entry is missing exactly when it can be read and the target lacks it, verified exactly when it can be read and the body has its hash and size, and a mismatch otherwise |
| VerifyMachine.MissingIsMissing | scripts/migrate-database.mjs:311-314 | no entry is ever counted as missing for a path that the target holds |
| VerifyMachine.EveryScheduleIsThePass | scripts/migrate-database.mjs:291-328 | the shared counters end as one sequential classification pass would leave them |
| MigrateMain.Select | scripts/migrate-database.mjs:145-158 | the filter loop keeps documents of the listing at ascending places, exactly the first limit of those that are not internal, and counts the others as excluded |
| MigrateMain.InternalIff | scripts/migrate-database.mjs:33-33 | a path is internal exactly when some segment of it starts with .aeordb- |
| MigrateMain.SelectionIsFaithful | scripts/migrate-database.mjs:33-33 | exactly the documents without a segment starting with .aeordb- are kept, and distinct paths stay distinct |
| MigrateMain.ManifestTellsTexts | scripts/migrate-database.mjs:245-263 | without a failure the manifest holds, for every document, hash and size of the text read for it in this run |
| MigrateMain.EndToEnd | scripts/migrate-database.mjs:128-218 | exit code zero means every selected document was read and the target's body has its hash and size, for any manifest, target, schedule and failures |
| MigrateMain.TargetEqualsSource | scripts/migrate-database.mjs:128-218 | with an injective hash and a source that did not change, target equals source on every selected path |
| MigrateMain.ExitZeroIff | scripts/migrate-database.mjs:184-216 | the exit code is zero exactly when no document fails and every entry reads back unchanged, whatever the schedule |
| MigrateMain.VerifyOnlyIsSound | scripts/migrate-database.mjs:106-126 | verify-only mode exits with zero only if the target confirms every entry |
| MigrateMain.VerifyOnlyIff | scripts/migrate-database.mjs:106-126 | verify-only mode exits with zero exactly when every entry was verified, and with one otherwise |
| MigrateMain.ResumeAfterCompleteSkipsAll | scripts/migrate-database.mjs:252-256 | a run resumed after a complete one over a source that did not change skips every document it can read and writes nothing, whatever the schedules |
| CopyOutcomes.SkippedIff | scripts/migrate-database.mjs:252-256 | in every run a document is skipped exactly when the run resumes and the prior entry has hash and size of the text read |
| CopyOutcomes.DryRunWritesNothing | scripts/migrate-database.mjs:258-259 | no dry run changes the target, whatever the schedule |
| CopyOutcomes.PrimedRun | scripts/migrate-database.mjs:252-256 | a resumed run whose prior entries all tell the source migrates nothing |
| CopyOutcomes.FateIff | scripts/migrate-database.mjs:245-275 | a document fails exactly when no attempt reads it or the text read can neither be skipped nor put; otherwise it settles with the first text read |
| CopyOutcomes.FatesIff | scripts/migrate-database.mjs:225-277 | so it is for every document of every complete interleaving of any workers |
| Retry.PutWithRetry | scripts/migrate-database.mjs:372-385 | success leaves exactly the text, failure the old body or the text, at most the allowed calls run, success on call k has slept 200·(2^(k-1)−1) ms |
| Retry.ReadWithRetry | scripts/migrate-database.mjs:372-385 | the result is the first answer that is not an error, and nothing is asked after it |
| Migration.CopyRun.constructor | scripts/migrate-database.mjs:137-170 | a new run starts in the initial state of the step system |
| Migration.CopyRun.ClaimNext | scripts/migrate-database.mjs:239-245 | taking an index in place is the claim step |
| Migration.CopyRun.OnRead | scripts/migrate-database.mjs:245-264 | a read that settles in place is the read step: skip, dry run, put, retry or failure |
| Migration.CopyRun.OnWake | scripts/migrate-database.mjs:379-380 | the end of a wait is the next attempt |
| Migration.CopyRun.OnPut | scripts/migrate-database.mjs:258-275 | a put that takes effect, succeeds or fails is its step |
| Migration.CopyRun.OnFlush | scripts/migrate-database.mjs:402-404 | a manifest write that starts, truncates, ends or is rejected is its step |
| Migration.CopyRun.Processed | scripts/migrate-database.mjs:266-271 | counting a document queues a manifest write at every multiple of 500 |
| Migration.CopyRun.Dispatch | scripts/migrate-database.mjs:238-276 | any event in place is the step of that event |
| Migration.CopyRun.Replay | scripts/migrate-database.mjs:225-277 | any run in place is the run of the step system |
| Migration.Verification.OnBody | scripts/migrate-database.mjs:311-323 | a body that comes back is counted as verified, mismatch or missing |
| Migration.Verification.OnError | scripts/migrate-database.mjs:303-309 | a failed read is retried, and counted as mismatch after the last attempt |
| Migration.Verification.Replay | scripts/migrate-database.mjs:294-328 | any run in place is the run of the step system |
| Migration.Conclude | scripts/migrate-database.mjs:212-216 | the exit code is zero exactly when no document failed and, unless the run was dry, no entry mismatched or was missing; otherwise it is one, also for a dry run with a failed read |
| Migration.ReadPrior | scripts/migrate-database.mjs:128-135 | under resume the prior manifest is the one in the file; without resume, or when the file is absent or does not parse, it is empty |
| Migration.Migrate | scripts/migrate-database.mjs:128-218 | a whole copy run in place, from the filter and the prior manifest through both pools: the exit code is zero or one, zero exactly when no document failed and every entry read back as verified, and zero means the target has hash and size of every text read |
| DevWatch.NoChildAbandoned | scripts/dev-watch.mjs:173-212 | every replaced child has exited or was sent SIGKILL, SIGKILL follows SIGTERM, and when the process exits other than by an unhandled signal this holds for the last child too |
| DevWatch.AbandonsIff | scripts/dev-watch.mjs:102-108 | a step that ends the process leaves a child behind exactly when it is a signal without a handler and the current child is neither gone nor sent SIGKILL |
| DevWatch.AbandonedChild | scripts/dev-watch.mjs:102-108 | a run in which such a signal leaves the first child running unsignalled |
| DevWatch.EndsIff | scripts/dev-watch.mjs:93-138 | over all runs: exit code one exactly after a probe that finds a server, a child that never gets healthy or a sample that fails; killed exactly by a signal without a handler; shutting down exactly after a handled one; children only after a probe that found no server, and none when it found one |
| DevWatch.SignalledIff | scripts/dev-watch.mjs:199-212 | while the process lives a child has been sent SIGTERM exactly when a second differing sample or a first handled signal found it running, and SIGKILL exactly when the wait after that ran out |
| DevWatch.CrashesAreRestarted | scripts/dev-watch.mjs:117-122 | as many children are spawned for a crash as polls find the child gone before a shutdown, each in place of one that has exited; only the first is spawned for no other reason than the start |
| DevWatch.ShutdownProgress | scripts/dev-watch.mjs:278-285 | a shutdown under way can always go on, the child's exit ends it, and at most two waits are left |
| DevWatch.FewSpawnsAfterShutdown | scripts/dev-watch.mjs:173-187 | once shutdown has begun no run spawns more than one further child, and none unless main is stopping a child or in a poll |
| DevWatch.SpawnAfterShutdownIff | scripts/dev-watch.mjs:114-137 | after any run that has begun to shut down a further spawn is within reach exactly when main is stopping a child or in a poll |
| DevWatch.LateChildIsLeftToExit | scripts/dev-watch.mjs:105-108 | in every run a child spawned after shutdown began is signalled by nobody while the process lives; at its exit it is sent both signals unless it has gone, and a signal without a handler leaves it untouched |
| DevWatch.SpawnAfterShutdown | scripts/dev-watch.mjs:173-187 | a run in which it happens, and in which only the exit handler stops that child |
| DevWatch.RestartsAreDebounced | scripts/dev-watch.mjs:124-136 | every restart for a change had two samples unlike the recorded fingerprint, and the second was recorded before the spawn |
| DevWatch.PersistentChangeRestarts | scripts/dev-watch.mjs:114-136 | a tree that stays different is acted on in the next poll, unless shutdown, an error or a crash of the child comes first |
| DevWatch.StopEndsInSpawn | scripts/dev-watch.mjs:199-212 | while the old child is stopped a wait can always end, and after at most two the new child is spawned, unless the process ends first |
| DevWatch.PersistentChangeSpawns | scripts/dev-watch.mjs:114-137 | so a tree that stays different gets its new child after that poll and those waits, with the new fingerprint recorded, unless the process ends first |
| DevWatch.RecordedAcrossStartIff | scripts/dev-watch.mjs:110-136 | for every start, in every run, the fingerprint recorded at the next loop head is the one recorded at the spawn exactly when the start was for a change or the sample taken when the child was ready equals it |
| DevWatch.RecordedIsNeverActedOn | scripts/dev-watch.mjs:124-131 | as long as the tree stays as recorded, no child is spawned for a change |
| DevWatch.FirstStartCanMissChange | scripts/dev-watch.mjs:110-111 | what changed before the sample of the first start is never acted on |
| DevWatch.CrashRestartCanMissChange | scripts/dev-watch.mjs:117-122 | nor is what changed before the sample of a crash restart |
| Supervisor.DevWatchProcess.Start | scripts/dev-watch.mjs:173-185 | starting in place probes, spawns, or stops the old child first |
| Supervisor.DevWatchProcess.SpawnChild | scripts/dev-watch.mjs:179-187 | a spawned child becomes the current one |
| Supervisor.DevWatchProcess.SignalChildGroup | scripts/dev-watch.mjs:214-221 | one child is signalled and no other |
| Supervisor.DevWatchProcess.Exit | scripts/dev-watch.mjs:105-108 | the end of the process forces the current child down |
| Supervisor.DevWatchProcess.OnStopWait | scripts/dev-watch.mjs:205-212 | the end of a wait in stopChild is its step: SIGKILL after SIGTERM, then the new child |
| Supervisor.DevWatchProcess.OnSampled | scripts/dev-watch.mjs:111-136 | a fingerprint is recorded, compared, debounced or acted on as in the step system |
| Supervisor.DevWatchProcess.Cleanup | scripts/dev-watch.mjs:278-285 | cleanup runs once and stops the current child |
| Supervisor.DevWatchProcess.OnCleanupWait | scripts/dev-watch.mjs:207-211 | the end of a wait in cleanup is SIGKILL, then the exit |
| Supervisor.DevWatchProcess.Dispatch | scripts/dev-watch.mjs:93-138 | any event in place is the step of that event |
| Supervisor.DevWatchProcess.Replay | scripts/dev-watch.mjs:93-138 | any run in place is the run of the step system |
| Supervisor.Supervise | scripts/dev-watch.mjs:93-138 | a whole run of the script in place: the object left behind attended to every child and debounced every restart for a change; its exit, shutdown, children and the signals they were sent are what the events make them, and a server that already answers means no child and exit code one |
| WatchFiles.IgnoredIff | scripts/dev-watch.mjs:42-45 | a path is ignored exactly for what is above it or for its own name |
| WatchFiles.ExtensionIff | scripts/dev-watch.mjs:55-55 | a file has a watched extension exactly when its name is something followed by one of them |
| WatchFiles.ShouldIgnoreIff | scripts/dev-watch.mjs:29-45 | a path is ignored exactly when one of its segments, read without dots, is one of the ignored names |
| WatchFiles.IsWatchableIff | scripts/dev-watch.mjs:18-56 | a file is watched exactly when nothing on its path is ignored and its name is one of the special names or ends in one of the source extensions |
| WatchFiles.NothingBelowIgnored | scripts/dev-watch.mjs:141-142 | an ignored subtree holds no watchable file, at any depth |
| WatchFiles.CollectWatchPath | scripts/dev-watch.mjs:140-166 | the pruned walk pushes exactly the files that an unpruned walk and the filter would keep, in the same order |
| WatchFiles.CollectWatchFiles | scripts/dev-watch.mjs:58-68 | over all roots the result is the sorted list of exactly these files |
| WatchFiles.FingerprintFiles | scripts/dev-watch.mjs:70-87 | the loop builds the lines of the sorted files, and the first error other than a missing file is rethrown |
| WatchFiles.FingerprintIsCanonical | scripts/dev-watch.mjs:74-74 | the order of the file list does not matter |
| WatchFiles.LineInjective | scripts/dev-watch.mjs:77-82 | a line tells the path, the rounded time and the size or that the file is missing, even when the path has colons |
| WatchFiles.LineReads | scripts/dev-watch.mjs:77-82 | a line is the path, the time in milliseconds with three decimals and the size, or the path and missing |
| WatchFiles.FingerprintIsFaithful | scripts/dev-watch.mjs:70-87 | for paths without line breaks equal fingerprints mean equal snapshots |
| WatchFiles.LineBreaksConfuse | scripts/dev-watch.mjs:86-86 | for any two paths in order, one missing path with a line break has the fingerprint of the two missing paths |
| WatchFiles.BlindIff | scripts/dev-watch.mjs:140-166 | nothing below a path is ever watched, whatever is there, exactly when the path is ignored |
| WatchFiles.RootsAreBlindIff | scripts/dev-watch.mjs:140-166 | nothing is watched, whatever stands at the roots, exactly when every root is ignored |
| WatchFiles.ResolvedIgnoredIff | scripts/dev-watch.mjs:62-64 | a watch entry of any form is ignored exactly for the segments it resolves to |
| WatchFiles.CheckoutIsBlindIff | scripts/dev-watch.mjs:58-68 | a checkout watches nothing, whatever it holds, exactly when every watch entry, nested, with dots or absolute, resolves to a path with an ignored segment |
| WatchFiles.DefaultCheckoutIsBlindIff | scripts/dev-watch.mjs:12-17 | with the default roots that depends on the place of the checkout alone |
| WatchFiles.BlindFingerprint | scripts/dev-watch.mjs:168-171 | such a checkout has one fingerprint for ever |
| Strings.SortSorts | scripts/dev-watch.mjs:67-67 | sorting gives an ordered permutation |
| Strings.LexIff | scripts/dev-watch.mjs:67-67 | one string comes before another exactly when it is its prefix or smaller at the first place where they differ |
| Strings.SortIgnoresOrder | scripts/dev-watch.mjs:74-74 | permuted lists sort to the same list |
| ParentMonitor.FiresOnceIff | scripts/parent-exit-monitor.mjs:17-46 | the callback runs at most once, exactly when the first event that matters finds the parent gone, and never after stop |
| ParentMonitor.ParentExitMonitor.OnTick | scripts/parent-exit-monitor.mjs:18-34 | a tick in place is the step of the tick, and says whether it fired |
| ParentMonitor.ParentExitMonitor.StopTimer | scripts/parent-exit-monitor.mjs:38-46 | stop in place is the step of stop |
| StartDev.ShutdownIsOrderly | scripts/start-dev.mjs:51-108 | the shutdown body runs at most once, each child of its snapshot is signalled exactly once and no other, the monitor fires at most once, and the process exits through it only when all children are gone |
| StartDev.EventsDecide | scripts/start-dev.mjs:24-108 | over all runs: shutting down exactly after a signal at Ready, an unclean child exit or a tick that fires, and then every child still running has exactly one signal and the process is over once none is; no child is signalled otherwise; each other ending and the state Ready come exactly from their events, and one child is started per need |
| StartDev.KikxComesAfterAeorDB | scripts/start-dev.mjs:28-42 | Kikx is only looked for once another driver is configured or AeorDB is ready |
| StartDev.LateTickIsIdle | scripts/start-dev.mjs:80-85 | once a shutdown has begun a tick that fires changes nothing but the monitor |
| StartDev.LateMonitorFires | scripts/start-dev.mjs:51-56 | a monitor installed during a shutdown can still fire |
| StartDev.ShutdownDuringStartup | scripts/start-dev.mjs:71-77 | a run that shuts down while Kikx is awaited |
| StartDev.AbandonsIff | scripts/start-dev.mjs:28-61 | a step that ends the process leaves a child running exactly when it is a startup error, a signal before the handlers are installed or at any time a signal without a handler, and a child is running |
| StartDev.StartupErrorAbandons | scripts/start-dev.mjs:39-42 | a Kikx that never listens is left running unsignalled |
| StartDev.SignalAllAt | scripts/start-dev.mjs:86-88 | the loop over the snapshot signals each of its children once and no other |
| DevStack.DevStackProcess.Start | scripts/start-dev.mjs:63-70 | a started child joins the children |
| DevStack.DevStackProcess.Remove | scripts/start-dev.mjs:72-72 | exactly the exited child leaves the children |
| DevStack.DevStackProcess.SignalActive | scripts/start-dev.mjs:86-88 | the loop in place signals the snapshot |
| DevStack.DevStackProcess.ShutdownAll | scripts/start-dev.mjs:80-92 | shutdown in place is the shutdown of the step system, and a second call does nothing |
| DevStack.DevStackProcess.HoldOrLeave | scripts/start-dev.mjs:46-61 | the end of the startup exits when nothing was started, else installs the monitor |
| DevStack.DevStackProcess.OnChildExit | scripts/start-dev.mjs:71-77 | a child that exits leaves the list, and an unclean exit shuts the stack down |
| DevStack.DevStackProcess.OnParentTick | scripts/start-dev.mjs:51-56 | a tick that fires shuts the stack down |
| DevStack.DevStackProcess.Dispatch | scripts/start-dev.mjs:24-61 | any event in place is the step of that event |
| DevStack.DevStackProcess.Replay | scripts/start-dev.mjs:24-61 | any run in place is the run of the step system |
| DevStack.RunStack | scripts/start-dev.mjs:24-92 | a whole run of the script in place: the object left behind shuts down exactly for a signal at Ready, an unclean exit or a tick that fires, in order, with one signal for each child still running; its exit, its startup and the number of its children are what the events make them |
| PercentCoding.DecodeEncode | scripts/request-login-link.mjs:69-69 | decoding undoes encoding for every string (section 2.1 of RFC 3986 over UTF-8) |
| PercentCoding.CutDecodesIff | scripts/request-login-link.mjs:160-160 | the first part of an encoded text decodes to p exactly when it is the encoding of p, a prefix of the text |
| PercentCoding.EncodeAlphabet | scripts/request-login-link.mjs:69-69 | an encoded string is made of unreserved characters and percent signs, and has an apostrophe only if the string has |
| PercentCoding.PlainIff | scripts/request-login-link.mjs:69-69 | a character stands for itself exactly when it is a letter, a digit or one of the nine marks that encodeURIComponent leaves alone |
| PercentCoding.PercentIs | scripts/request-login-link.mjs:69-69 | a byte is written as a percent sign and two upper-case hexadecimal digits, the high one first |
| PercentCoding.EuroIs | scripts/request-login-link.mjs:69-69 | the euro sign is written as its three bytes in UTF-8 (section 3 of RFC 3629) |
| PercentCoding.DecodeIff | scripts/request-login-link.mjs:160-160 | a text decodes to t exactly when it spells t, character by character, plain or in escapes of either case of the shortest UTF-8 form |
| LoginLink.StripRendered | scripts/request-login-link.mjs:145-147 | stripping a coloured text leaves exactly its visible part |
| LoginLink.EscapeIff | scripts/request-login-link.mjs:17-17 | what is stripped is exactly ESC and a bracket, parameters, intermediates and one final character |
| LoginLink.EndsIff | scripts/request-login-link.mjs:152-154 | a code ends exactly at a quote, an apostrophe, a comma, a closing brace or one of the white-space characters, each written out |
| LoginLink.RunEndsIff | scripts/request-login-link.mjs:152-154 | what is captured is the longest stretch without such a character |
| LoginLink.NothingFoundIff | scripts/request-login-link.mjs:149-164 | no code is found exactly when no code= is followed by a code character |
| LoginLink.ExtractFromLink | scripts/request-login-link.mjs:149-164 | what extraction makes of a printed link, for every code: the part before its first apostrophe |
| LoginLink.LinkRoundTripIff | scripts/request-login-link.mjs:69-69 | extraction returns the code of a printed link exactly for codes without an apostrophe, for every base URL free of code= and escape characters |
| LoginLink.VerifyLinkWins | scripts/request-login-link.mjs:151-161 | a verification link in a coloured log is found first and read in full, up to a line break, blank, quote, comma, brace or the end, whatever other code= stands around it |
| LoginLink.CutLineIff | scripts/request-login-link.mjs:107-112 | a poll that sees part of the code of an unfinished line gets p exactly when that part is the encoding of p, a prefix of the code, and an error exactly when there is no such prefix |
| LoginLink.EveryPrefixCanComeBack | scripts/request-login-link.mjs:107-112 | every proper prefix of every code comes back in its place when the line breaks off behind it |
| LoginLink.EscapeCanBeCut | scripts/request-login-link.mjs:160-160 | every code with an escape sequence fails when the line breaks off behind the percent sign |
| LoginLink.HalfACode | scripts/request-login-link.mjs:107-112 | the code ab is read as a when the log holds its first letter |
| LoginLink.MailerLineWins | scripts/request-login-link.mjs:153-153 | without a verification link the mailer's line is read in full, up to the same characters, whatever other code= stands around it |
| LoginLink.WaitForLoginCode | scripts/request-login-link.mjs:103-122 | the polling loop ends with the first code or error of the first poll that has one, or when the deadline has passed |
| LoginLink.WaitMeans | scripts/request-login-link.mjs:103-122 | waiting ends with the code or error of the first log that shows one while all before showed nothing in time, times out exactly at the first poll past the deadline when nothing was shown before, and goes on otherwise |
| LoginLink.ScanLogs | scripts/request-login-link.mjs:107-112 | the logs are read in order and the first that yields something decides |
| LoginLink.OldLinksDoNotMatter | scripts/request-login-link.mjs:36-39 | links that were in the logs when the request was made have no influence |
| LoginLink.SliceIsTheNews | scripts/request-login-link.mjs:166-187 | a log that only grew shows exactly what was appended |
| TestLanes.CoverageIff | scripts/test-lanes.mjs:11-47 | exactly which paths, of any length and depth, each lane's glob matches |
| TestLanes.LanesAreDisjoint | scripts/test-lanes.mjs:6-9 | no path matches the globs of two lanes |
| TestLanes.SpecIsSeenByItsLaneOrNone | scripts/test-lanes.mjs:53-56 | a file named like the specs of a lane is seen by that lane or by none |
| TestLanes.PickPartitions | scripts/run-test-lanes.mjs:106-107 | the lanes that run and the lanes that do not partition the table |
| TestLanes.PickKeepsOrder | scripts/run-test-lanes.mjs:106-107 | both keep the order of the table |
| TestLanes.SomethingIsSelected | scripts/test-lanes.mjs:58-71 | a selection without unknown names runs at least one lane |
| TestLanes.SelectionIsLanesFor | scripts/test-lanes.mjs:58-67 | the lanes that run: with --all all four, without a name unit and ui:playwright, and otherwise exactly the lanes whose names stand in the arguments, in the order of the table |
| TestLanes.UnknownIff | scripts/test-lanes.mjs:69-71 | a name is unknown exactly when it is no option, none of the four names and --all is not given |
| TestGate.SplitOfJoin | scripts/run-test-lanes.mjs:32-33 | the lines that the expression sees are the lines that were printed |
| TestGate.OtherTag | scripts/run-test-lanes.mjs:33-33 | a summary line counts for its own label only |
| TestGate.CountOnIff | scripts/run-test-lanes.mjs:33-33 | a line counts n for a label exactly when it is the information sign, the label and digits that mean n, with single blanks between |
| TestGate.OneLineIff | scripts/run-test-lanes.mjs:33-33 | a text is one line exactly when it has none of the four line terminators |
| TestGate.LastMatchDecides | scripts/run-test-lanes.mjs:37-39 | in any output the last line that counts decides |
| TestGate.CountIsRead | scripts/run-test-lanes.mjs:32-40 | a count on a line of its own is read back whatever surrounds it, with any line terminators, unless a later line counts for the same label |
| TestGate.BlockIsRead | scripts/run-test-lanes.mjs:32-40 | every count of a summary block is read back, whatever was printed before, lookalikes included |
| TestGate.RunLane | scripts/run-test-lanes.mjs:42-96 | the first close or error decides the result from the output so far, later events change nothing, and the timer kills at most once and only before |
| TestGate.PrintedIs | scripts/run-test-lanes.mjs:55-60 | the output is the chunks in the order of the events and nothing else |
| TestGate.PassesIff | scripts/run-test-lanes.mjs:66-95 | for every output and every way to settle, a lane passes exactly when it closes with code zero, unsignalled, and its last counts do not say that as many were skipped and failed as there were |
| TestGate.RunSelected | scripts/run-test-lanes.mjs:109-118 | the loop runs the selected lanes in order and ends exactly when every one of them settles |
| TestGate.Gate | scripts/run-test-lanes.mjs:98-162 | exit 2 exactly for an unknown name among the arguments; otherwise 0 exactly when every lane that the arguments ask for first settles with code zero, unsignalled, and does not count as many skipped and failed as tests; none exactly while one never settles; else 1; the results are, by name and in order, those of these lanes |
| TestGate.SummaryDecides | scripts/run-test-lanes.mjs:74-81 | a lane whose child ends with a summary passes exactly when it exits 0 unsignalled and the tests are not as many as skipped and failed together |
| TestGate.SummarisedLaneExecutesIff | scripts/run-test-lanes.mjs:74-81 | it passes for having executed something exactly when it exits 0 unsignalled with more tests than skipped and failed |
| TestGate.HollowLanePassesIff | scripts/run-test-lanes.mjs:20-24 | for every output, a lane that executed nothing passes exactly when it exits 0 unsignalled with no test count, or one exceeded by skipped and failed |
| TestGate.PassMeansExecutedIff | scripts/run-test-lanes.mjs:20-24 | a passing lane executed something exactly when its output has a test count that is not exceeded |
| TestGate.OvercountedLaneIsGreen | scripts/run-test-lanes.mjs:143-143 | whenever more is skipped and failed than there were tests the lane passes with less than nothing executed |
| TestGate.OneTestTwoSkips | scripts/run-test-lanes.mjs:143-143 | one test and two skips are such counts |
| TestGate.SilentLanesAreGreen | scripts/run-test-lanes.mjs:138-143 | lanes that print nothing and exit 0 make the gate green |
| SessionArgs.TokensOfFlatten | scripts/opencode-session.mjs:74-99 | cutting spelled-out options into groups gives the groups back |
| SessionArgs.FlattenOfTokens | scripts/opencode-session.mjs:74-99 | every argument list that parses is spelled by its groups, and only its last option may lack a value |
| SessionArgs.ParseArgs | scripts/opencode-session.mjs:55-107 | the loop, which moves its own index past values, terminates and computes the fold over the groups |
| SessionArgs.LastMentionWins | scripts/opencode-session.mjs:74-104 | every field is read off its last mention alone, and --full overrides both lengths wherever it stands |
| SessionArgs.OrderDoesNotMatter | scripts/opencode-session.mjs:55-107 | every permutation of groups that do not disagree parses to the same options |
| SessionArgs.DisagreementShows | scripts/opencode-session.mjs:74-99 | two groups that disagree can be told apart by their order |
| SessionArgs.ThrowsIff | scripts/opencode-session.mjs:94-97 | parseArgs succeeds exactly on what some sequence of options, values and positionals spells |
| SessionArgs.UnknownIff | scripts/opencode-session.mjs:94-98 | an argument is refused exactly when it starts with two dashes and is none of the option names, and is the target exactly when it does not and is none |
| SessionArgs.SwitchesByName | scripts/opencode-session.mjs:55-104 | the defaults, and what each switch, by its name, changes in them |
| SessionArgs.SettingsByName | scripts/opencode-session.mjs:55-104 | what each option with a value, by its name, changes in them |
| SessionRows.ReverseInPlace | scripts/opencode-session.mjs:232-232 | the array is reversed in place |
| SessionRows.OrderByOrders | scripts/opencode-session.mjs:221-231 | ORDER BY gives all rows, in order |
| SessionRows.OneOrder | scripts/opencode-session.mjs:221-231 | there is one way to order a set of rows by time and id |
| SessionRows.TailIsLast | scripts/opencode-session.mjs:230-232 | descending, limited and reversed is exactly the last n rows ascending |
| SessionRows.WindowOfWhole | scripts/opencode-session.mjs:210-221 | selecting a window and ordering it is cutting the window out of the ordered session |
| SessionRows.WindowIsBlock | scripts/opencode-session.mjs:210-221 | a window is one unbroken stretch of the session |
| SessionRows.WindowsMeet | scripts/opencode-session.mjs:213-220 | reading up to a time and from that time on reads the whole session once |
| SessionRows.HeadThenTail | scripts/opencode-session.mjs:225-233 | head n followed by the matching tail is the whole session |
| SessionRows.BadDateShowsNothing | scripts/opencode-session.mjs:213-220 | a date that does not parse shows nothing |
| SessionRows.TailCountsIff | scripts/opencode-session.mjs:203-233 | a tail has an effect exactly when neither a window nor a head is given |
| SessionRows.HeadCountsIff | scripts/opencode-session.mjs:203-228 | a head has an effect exactly when no window is given |
| SessionRows.LoadRows | scripts/opencode-session.mjs:199-234 | the queries and the reversal show the rows that the options ask for, cut from the session in order: the last 40 when nothing is asked for, the first or last n, all for a negative n, and with a window exactly those at or after since and before until; a limit that is no integer is refused |
| SessionRows.WholeIsOrdered | scripts/opencode-session.mjs:226-231 | the session is exactly its rows in the table, strictly ordered by time and among equal times by id |
| SessionView.TruncateTellsLength | scripts/opencode-session.mjs:329-335 | from truncated text the kept prefix and the original length can be told |
| SessionView.TruncateReads | scripts/opencode-session.mjs:329-335 | a text within the limit is left alone, a longer one is its first n characters and the notice with the number cut |
| SessionView.NoticeIsRightIff | scripts/opencode-session.mjs:333-334 | text that is cut is printed with the number of characters cut exactly when the limit is not negative |
| SessionView.DecorationKeepsOrder | scripts/opencode-session.mjs:243-249 | decoration keeps the order of the parts and drops exactly those that the options and the part types leave out |
| SessionView.ToolLimitIsForToolsAndFiles | scripts/opencode-session.mjs:266-293 | --tool bears on tools and files alone |
| SessionView.TextLimitIsForWords | scripts/opencode-session.mjs:266-293 | --text bears on the parts with words alone |
| SessionView.ThinkingIsForReasoning | scripts/opencode-session.mjs:273-276 | --no-thinking bears on reasoning alone |
| SessionView.ToolsIsForTools | scripts/opencode-session.mjs:277-280 | --no-tools bears on tools alone |
| SessionView.FullCutsNothing | scripts/opencode-session.mjs:101-104 | with --full anywhere in the arguments no text and no tool output is cut |
| SessionView.FullView | scripts/opencode-session.mjs:266-313 | with nothing cut and nothing hidden each kind of part shows all its own fields |
| SessionView.CutView | scripts/opencode-session.mjs:266-313 | with limits each kind of part is cut to the limit meant for it |
| SessionView.InputByTool | scripts/opencode-session.mjs:315-327 | bash shows its command, write its path and cut content, edit its path and both strings cut at 400, read, glob and grep their JSON in full, any other tool its cut JSON |
| SessionView.DecoratedFields | scripts/opencode-session.mjs:251-260 | a shown message has the fields of its row and of its data, with unknown for no role |
| SessionView.DecorateParts | scripts/opencode-session.mjs:243-249 | the inner loop pushes exactly the parts that are rendered |
| SessionView.DecorateMessages | scripts/opencode-session.mjs:236-264 | one message per row in order, and a throw exactly when the data of a row is JSON null |
| SessionView.LoadMessages | scripts/opencode-session.mjs:199-264 | the chosen rows, decorated |

## Left out

- Retry.PutWithRetry: a put that rejected and takes effect only after a later attempt began is not modelled; an effect belongs to the attempt that made it.
- CopyCrash.AlwaysSound: needs a source that does not change, a non-dry run and a manifest that is sound, absent or unparsable at the start; the two counterexample lemmas show what happens otherwise.
- CopyCounts.StuckMeansFinished: a rejected manifest write ends the original with an error; the model stops at the broken chain.
- MigrateMain.EndToEnd: covers what happens up to the decision of the exit code; closing the connections, the summary and the last manifest write are not steps.
- WatchFiles.FingerprintIsFaithful: a time is a whole number of thousandths of a millisecond; the negative zero that prints as -0.000 and times that are not finite are not modelled.
- WatchFiles.CollectWatchFiles: the tree is finite and does not change during the walk, but for entries that vanish; cycles of symbolic links and errors other than a missing entry are not modelled.
- Strings.SortSorts: strings are ordered by code point, the original orders by UTF-16 unit.
- LoginLink.WaitForLoginCode: UTF-8 decoding of the log is an uninterpreted function, and a read that returns fewer bytes than asked for is not modelled.
- TestGate.RunLane: a chunk boundary inside a multi-byte character is not modelled; each chunk is the text it decodes to.
- SessionArgs.ParseArgs: Number() is an uninterpreted function whose finite values are integers; fractions are not modelled.
- SessionRows.LoadRows: the database is its tables; a date that does not parse is bound as NULL, and a limit that is no integer is refused.
- SessionView.DecorationKeepsOrder: a part is its parsed data with missing and falsy fields already replaced by their defaults.
- The lengths of waits and deadlines: only which of two events comes first is modelled, and any may.
- Numbers are unbounded: the loss of precision beyond 2^53 is not modelled.
- SHA-256, JSON, HTTP, SQL, sockets, timers, processes and file systems are not modelled beyond what their answers can be.
- Environment variables, help texts, progress output and transcripts as text: no state depends on them.
- The count of target documents and its failure after verification: only the printed summary uses it.
- Verify-only mode combined with a dry run, where the original has no target to read and fails.
- Listing and resolving sessions in opencode-session.mjs: queries without a hard property.
- A process group that cannot be signalled for lack of permission, and a child that cannot be spawned at all: the error events that end the supervisors then are not modelled.
- The other scripts: they drive code that is not modelled here.
- The frame engine, router, compaction, scheduler and stores under src/: not part of this model.
