# srm: host-state machines and their algorithms

srm manages GitHub Actions runners on a host: persistent runners installed as systemd units,
and ephemeral slot lanes that mint one single-use registration per job. This project models the
parts whose correctness depends on ordering, on partial failure, or on exact text handling, and
proves what they keep.

- `LaneProtocol`, `RunCycle`: the ephemeral lane protocol. Lane processes, a reap pass and GitHub
  interleave one call at a time; every call may fail, every lane may die at any call. `RunCycle`
  is the cycle as imperative code over the ledger file, proved to follow a path of the protocol.
- `AgentTree`, `AgentCalls`, `AgentUpgrade`: the in-place agent upgrade behind a rename snapshot,
  over a directory tree, with a fault chosen for every system call (work, fail half-way, die
  half-way). `AgentCalls` numbers the calls and reads off them how the upgrade ends and whether the
  unit is up then; `AgentUpgrade` is proved to end like that.
- `Gates`, `Manifest`, `UpgradePass`: the upgrade pass over all runners, its gates and its
  manifest. The pass calls the upgrade of `AgentUpgrade` on real runner objects.
- `Classify`, `Templates`, `Settings`, `Reconcile`: drift classes, template generations and settings
  in unit text, and the reconcile pass. `ReapPass` proves that the pass's reaping of GitHub rows is
  the pass of the lane protocol.
- `SubIds`, `Isolation`: the `/etc/subuid` allocator on the text of the file, and the
  configuration check that makes its blocks per-org.
- `Slots`, `UnitNames`, `Versions`: additive slot allocation, unit and registration names, agent
  versions, download URLs and cache paths.
- `JobLog`, `Tail`: the job-log store and the ring-buffer tail.
- `Text`, `Sorting`, `Options`: strings, integers of 64 bits, and sorting as Go's library has them.

Methods follow the source's loops and in-place updates and are proved against functions; the
lemmas are about those functions.

## Assumptions

- One cycle process runs per slot; a unit is active exactly while its process runs; one reap pass
  runs at a time.
- GitHub never reuses an id. A delete is accepted only for a live id and answers 404 only for a
  dead one; a look-up answers truthfully; any call may instead fail without saying anything.
- The ledger file survives a crash as last written; a write of the id is atomic once the file has
  been truncated. An empty or missing ledger reads as 0.
- Directories exist as soon as a file below them does; symbolic links and clashes between a file
  and a directory are not modelled. A release archive unpacks to `bin` and `externals`, and holds
  nothing named like a snapshot. The verified tarball of a version is always the same one.
- A failed `systemctl` call may or may not have taken effect, and a unit that fails its self-test
  may be dead or not; the fault decides.
- Strings are sequences of code points.

## Where the code does not keep its promise

Each of these is stated as an exact condition, or with a witness, in the table below.

1. A pass deletes the registration of a running cycle when the ledger still names an older id: the
   start-of-cycle read failed, so that nothing was reaped, or the clear did
   (`ReapKillsRunningCycleIff`, with a witness in `FailedClearLosesRunningCycle`).
2. The comment above `maybeReapGhost` says that other hosts' registrations are excluded. They are
   not when this host has a lane with the same slot id (`ReapTakesForeignIff`, with a witness in
   `ForeignIsTaken`).
3. More causes of a leaked registration than the code comments name: a mint whose answer is lost,
   and an older id still in the ledger when the next one is recorded, whose truncation drops it. It
   is still there when the start-of-cycle read failed, or the delete and the clear both did
   (`Leaks`, `RunLeaksExactly`, `UnreadLedgerLeaks`).
4. When the first snapshot rename works and the second does not, the runner is started without
   `bin`, although the comment calls the agent untouched and the pass reports it as rolled back.
   Which calls, from the start of the upgrade, lead there is exact (`LosesPayload` in the contracts
   of `UpgradeRunnerAgent` and `Swap`), with a witness in `HalfSnapshotHappens`.
5. A runner reported as restored can be down, and not only one marked `ErrRunnerDown`. When it is,
   for each such end and by the calls from the start on, is exact (`UpIff`), with a witness in
   `RolledBackCanBeDown`.
6. Recovery ignores a rename that fails, and the snapshot then clears what it did not bring back: a
   directory that was only in its snapshot is deleted. Which calls, from the start on, lead there is
   exact (`OnlyCopyLostIff`), with a witness in `OnlyCopyCanBeLost`, reported as rolled back and
   running without `bin`. A rollback also leaves the new release's directory where the old tree had
   none (`PayloadByCalls` in the contract of `UpgradeRunnerAgent`, with a witness in
   `RollbackLeavesNew`).
7. Recorded versions can drop through a target whose version is not recognised
   (`DropsThroughIff`).
8. An asset URL with a query or a fragment is cached under a name a rollback never looks for
   (`RollbackFindsDownloadIff`).
9. Reinstalling the same version by force leaves nothing to roll back to (`RollbackPossibleIff`).
10. Reconcile reads the configuration for the classification before the one for the listing. An
    org that a reload removed in between is not asked, counts as listed, and a fix removes its units
    (`OrphanIff`, `RemovedOrgIsOrphaned`). No unit parses to an org that was added
    (`AddedOrgIsLeftAlone`).
11. `subIDRangeCount` takes an existing count too large for an int for a wide range;
    `ensureSubIDFile` rejects the same line (`ProbeAgreesIff`).
12. The end of a range is computed with wrap-around: a range that runs past the largest int is
    overlooked, and a new block that does not end before it lands inside it (`EnsuredDisjointIff`,
    `EnsuredAllDisjointIff`, with a witness in `WrappedRangeOverlaps`). The final write truncates
    first: cut short, it loses other users' lines (`TornWriteLosesIff`).
13. An existing line with a wide count and a start that is no number satisfies allocator and probe,
    and gives its user no block (`EnsuredGivesBlockIff`, `MalformedLineOwnsNothing`).
14. A drop-in that cannot be read is taken for a missing one: an older binary writes over a newer
    unit (`PassLowersIff`, `NewerTouchedIff`, with a witness in `UnreadableNewerIsLowered`). A write
    cut short before the last digit of its marker takes a generation back too (`TornLowersIff`,
    `TornWriteLosesGenerationIff`).
15. The generation of an ephemeral unit is read back as written if and only if no line above the
    marker states another one first; a value with a marker line in it changes what is read
    (`EphemeralUnitVersionIff`, `WorkDirMisleads`).
16. A run with runner id 0 is never listed, so never pruned (`PruneSparesUnlistedIff`), and all runs
    of a slot without a positive id share one file (`SharePathIff`).

## Model

| member | source | states |
|---|---|---|
| LaneProtocol.RunKeeps | internal/service/ephemeral.go:362-433 | over every run and interleaving: the ledger only ever names this host's own id for the slot; between mint and return of a cycle that minted over an empty ledger it is 0 or the current id; at mint-to-record it is not yet the current id; after recording it is; nothing about a lane is lost |
| LaneProtocol.ReaperSparesRunningCycles | internal/service/reconcile.go:309-328 | safety over every run: whenever the reaper is about to delete, its target is not the registration of a cycle between mint and return that minted over an empty ledger |
| LaneProtocol.ReapPassExactly | internal/service/reconcile.go:229-246 | a pass run alone, its deletes working, removes exactly the listed rows whose slot this host has and whose lane is down or records another id; lanes and everything else on GitHub stay |
| LaneProtocol.CondemnedWasIdle | internal/service/reconcile.go:227-233 | over every run: what the reaper is about to delete it has listed, and was live, offline and idle when it did |
| LaneProtocol.ReapPassSweepsIdleLane | internal/service/reconcile.go:309-328 | a pass over a lane that is down removes every listed registration of its slot |
| ReapPass.AbandonedIffDoomed | internal/service/reconcile.go:303-328 | a listed row of a minted registration is taken if and only if it is offline and idle and doomed in the protocol, for every state of the lanes |
| ReapPass.SweepExactly | internal/service/reconcile.go:227-246 | what a sweep over the rows leaves of an org's minted registrations: all but those listed, doomed and not refused |
| ReapPass.SweepIsThePass | internal/service/reconcile.go:227-246 | with no delete refused it leaves GitHub exactly as the pass of the protocol that lists the same rows and runs alone |
| ReapPass.SweepSparesRunningCycles | internal/service/reconcile.go:309-328 | whatever is asked of it, a sweep never deletes the registration of a running cycle that minted over an empty ledger, not even while the ledger says 0 |
| LaneProtocol.ReapKillsRunningCycleIff | internal/service/reconcile.go:309-328 | a pass that lists a running cycle's registration deletes it if and only if the ledger holds another id, which takes a start-of-cycle read or clear that failed |
| LaneProtocol.FailedClearLosesRunningCycle | internal/service/ephemeral.go:365-368 | that condition is reached: a run in which a live registration is deleted before it was recorded |
| LaneProtocol.ReapTakesForeignIff | internal/service/reconcile.go:303-328 | a listed registration of another host goes if and only if this host has a lane with that slot id that is down or records some id |
| LaneProtocol.ForeignIsTaken | internal/service/reconcile.go:303-328 | that happens: a run in which a pass takes what another host has just minted |
| LaneProtocol.UnreadLedgerLeaks | internal/service/ephemeral.go:362-403 | a ledger that cannot be read over a live id costs that id when the next one is recorded |
| LaneProtocol.CycleLeaksExactly | internal/service/ephemeral.go:362-433 | conservation per call: the registrations nothing answers for grow by exactly the five named causes and shrink only by what GitHub drops |
| LaneProtocol.EndOfCycleNeverLeaks | internal/service/ephemeral.go:410-433 | the decision about a finished job's registration never leaks, whatever GitHub answers |
| LaneProtocol.RunLeaksExactly | internal/service/ephemeral.go:362-433 | conservation over every run and interleaving: leaked at the end is leaked before plus what the leaking calls added, less what GitHub dropped since |
| LaneProtocol.WithoutLeaksOnlyTheLedger | internal/service/ephemeral.go:362-433 | while nothing leaks, a slot has at most the one registration its ledger names, outside mint-to-record |
| RunCycle.PendingRecorded | internal/runner/orchestrator.go:1535-1542 | an id that was written reads back as itself; a truncated and a missing ledger read as no id |
| RunCycle.Host.ReapStale | internal/service/ephemeral.go:362-368 | delete what the ledger names, then clear it, whatever the delete said; never renames an id |
| RunCycle.Host.MintJIT | internal/service/ephemeral.go:370-400 | an id to work with exactly when setup and mint worked; the cycle is marked when the ledger was not empty at that moment |
| RunCycle.Host.RecordJIT | internal/runner/orchestrator.go:1546-1565 | reports success exactly when nothing failed, and then the ledger names the id; GitHub is not touched |
| RunCycle.Host.Settle | internal/service/ephemeral.go:410-433 | the registration is deleted exactly when it was found and the delete takes effect; the ledger keeps the id exactly when the look-up, the delete or the clear failed |
| RunCycle.Host.RunCycle | internal/service/ephemeral.go:343-439 | refines the protocol: every cycle is a path of it from rest to rest; no error exactly when everything up to the job worked, the job did, and its registration was not found afterwards; for every combination of failures exactly what the ledger says, whether the leftover and the fresh registration are live, and that everything else on GitHub is as before |
| AgentTree.UnpackAgrees | internal/runner/orchestrator.go:1196-1201 | what an extraction leaves below a name depends only on what was below that name |
| AgentTree.UnpackMeans | internal/runner/orchestrator.go:645-684 | an extraction file by file: below each name the files of the old tree and those some entry writes, each of the latter with the contents of the last entry that does, the others as they were |
| AgentTree.UnpackHolds | internal/runner/orchestrator.go:645-684 | extracted where there was nothing: exactly the archive's files, each with the contents of the last entry for it |
| AgentTree.RecoverExactly | internal/runner/orchestrator.go:1273-1287 | recovery leaves no snapshot; a missing directory comes back from its snapshot, a present one is kept; no other name is touched |
| AgentCalls.UpIff | internal/runner/orchestrator.go:1184-1223 | whether the unit is up after an upgrade that was not stopped, not snapshotted or rolled back, for every tree and by the calls from the start on: it was up and the stop had no effect; the start after the failed rename took effect; the last start did, or the unit was up when the swap failed and the rollback's stop had no effect |
| AgentCalls.TriedUpIff | internal/runner/orchestrator.go:1205-1212 | the unit is up when the swap fails if and only if all before the start worked and it took effect, and the self-test, if there was one, did not find the unit dead |
| AgentCalls.RolledBackCanBeDown | internal/runner/orchestrator.go:1214-1223 | a healthy tree and a safe archive, only the chown and the rollback's start fail: rolled back, and down |
| AgentCalls.RollsBackIff | internal/runner/orchestrator.go:1184-1223 | an upgrade rolls back if and only if its swap fails, the rollback is seen through and every directory with a snapshot is put back; it ends marked down if and only if one of them is not; for every tree, by the calls from the start on |
| AgentCalls.HalfSnapshotHappens | internal/runner/orchestrator.go:1189-1192 | a tree with both directories, only the second rename fails: the payload is lost, and the runner is reported as restored |
| AgentCalls.OnlyCopyLostIff | internal/runner/orchestrator.go:1231-1287 | a directory an earlier crash left only in its snapshot is no longer whole after the next snapshot if and only if recovery's rename failed and the snapshot came to clear it and removed something, by the calls from the start on |
| AgentUpgrade.RunnerHost.RecoverAgentSnapshot | internal/runner/orchestrator.go:1273-1287 | does that when its calls work, and in general leaves exactly the tree its calls say; whatever fails, a payload directory that is there and every other name stay |
| AgentUpgrade.RunnerHost.Extract | internal/runner/orchestrator.go:645-684 | on success every file an entry writes has the contents of the last one that does, and all others are as they were; how far it gets, and which files it adds, is what its calls say; it succeeds on a safe archive if no call fails |
| AgentUpgrade.RunnerHost.SnapshotAgentPayload | internal/runner/orchestrator.go:1233-1245 | for every tree: it ends as its calls say, with exactly the tree they say; a first part of the payload is renamed aside whole and the rest untouched, all of it on success; a failed snapshot leaves the payload as it was if and only if the first directory was missing or its rename does not work |
| AgentUpgrade.RunnerHost.RestoreAgentPayload | internal/runner/orchestrator.go:1249-1261 | on success every snapshot is back in its place, and gone; at whatever call it stops, what a snapshot held is in its place or still in the snapshot; a directory without one, and everything outside the payload, is left as it was; how it ends is what its calls say |
| AgentUpgrade.RunnerHost.DiscardAgentSnapshot | internal/runner/orchestrator.go:1264-1268 | never touches the payload or anything outside it, at whatever call it stops; leaves a snapshot exactly where its call did not work |
| AgentUpgrade.RunnerHost.SwapAgent | internal/runner/orchestrator.go:1185-1228 | for every tree, by the calls from the stop on: which end the swap takes, whether the unit is up then, and where each payload directory is: what the snapshot held of it is back in its place after a rollback, in the snapshot after a crash in the swap, in one of the two when a restore fails or dies; one with nothing in the snapshot keeps what the extraction wrote; a failed snapshot leaves exactly the tree its calls say; after success exactly the archive's payload, owned by the runner user, unit running, and which snapshots are left; outside the payload only what the archive writes changes; with no fault and a safe archive it succeeds |
| AgentUpgrade.RunnerHost.UpgradeRunnerAgent | internal/runner/orchestrator.go:1158-1229 | the same for the whole call, after recovery of an earlier crash, for every tree and by the calls from the start on; a directory that is there once recovery is done is there, whole, after a rollback; a failed snapshot costs the payload if and only if the first directory is there, its rename works and the second's does not; refused without a trace exactly without unit, registration or verified tarball; a unit is left down only by a stop or start that did not work; with no fault and a safe archive it succeeds and leaves no snapshot |
| AgentUpgrade.SnapshotSurvives | internal/runner/orchestrator.go:1196-1212 | through an extraction cut short anywhere, and the chown, the snapshots hold every directory there was |
| AgentUpgrade.SwapInstalls | internal/runner/orchestrator.go:1196-1212 | after a complete extraction over the moved tree the payload is exactly the archive's files, each with the contents of the last entry for it, and nothing left over from the old one |
| AgentUpgrade.CrashInSnapshotRecovers | internal/runner/orchestrator.go:1233-1287 | a crash at any call of the snapshot, then recovery: every payload directory there was, whole, and no snapshot |
| AgentUpgrade.CrashInDiscardRecoversIff | internal/runner/orchestrator.go:1264-1287 | a crash while discarding, then recovery: the complete new payload, if and only if no directory the archive lacks still has a snapshot |
| AgentUpgrade.CrashInSwapRecoversIff | internal/runner/orchestrator.go:1273-1287 | a crash in the swap, then recovery: a directory is the old one if and only if the extraction had not created it, or had already made it equal |
| AgentUpgrade.OnlyCopyCanBeLost | internal/runner/orchestrator.go:1237-1282 | `bin` only in its snapshot, only recovery's rename fails, and the archive does not extract: reported as rolled back, unit up, and no `bin` anywhere |
| AgentUpgrade.RollbackLeavesNew | internal/runner/orchestrator.go:1249-1261 | a tree without `bin` and only the chown fails: reported as rolled back to the prior agent, with the new release's `bin` in place |
| Gates.DropsThroughIff | internal/service/upgrade.go:331-339 | two passes take a runner to an older version if and only if the first target was not recognised |
| Gates.VersionsNeverDrop | internal/service/upgrade.go:331-339 | over any manifest history let through by the gates, with recognised targets, no recorded version decreases or is lost |
| Gates.PassesNeverDrop | internal/service/upgrade.go:331-339 | the same over any sequence of passes |
| Gates.GateOnNumbers | internal/service/upgrade.go:331-339 | on versions made of numbers: without force the one that is there already is refused, and except for a rollback every smaller one; nothing else is |
| Gates.RollbackPossibleIff | internal/service/upgrade.go:279-292 | after an upgrade, a rollback goes back to the version before if and only if that was known, was another one, and its tarball is where the rollback looks |
| Gates.RollbacksAlternate | internal/service/upgrade.go:221-228 | after A to B, n rollbacks in a row restore A, B, A, and so on, for every n, with both downloads cached |
| UpgradePass.StepSurvives | internal/service/upgrade.go:211-219 | an attempt that neither succeeded nor is given up leaves the payload the manifest records |
| UpgradePass.Pass.Swap | internal/service/upgrade.go:211-219 | a runner reported as rolled back has the payload on record if and only if it was refused or the calls from the start on do not half-way snapshot it; whether the unit is up then is what they say |
| UpgradePass.Pass.Resolve | internal/service/upgrade.go:99-111 | one download per org and pass, a failed answer not remembered |
| UpgradePass.Pass.Plan | internal/service/upgrade.go:165-209 | every reason to leave a runner alone is given exactly when it applies and none that is tested before it does; else it is tried, towards the target; the target its row of the report shows |
| UpgradePass.RulingIff | internal/service/upgrade.go:153-209 | each of those reasons as a condition of its own: busy, another host's id, nothing to install, at target, older, dry-run, busy by now |
| UpgradePass.IdsDecide | internal/service/upgrade.go:172-190 | over every result of a pass: a tried runner's known id is unknown, or its live one is, or they are equal; a mismatch is reported exactly when the runner is idle and both are known and differ |
| UpgradePass.Pass.UpgradeOne | internal/service/upgrade.go:153-231 | tried, or left alone for the reason that applies; not tried or refused: the runner is untouched; its record changes if and only if it was upgraded, to the new version, with the one before kept for a rollback and an unknown id filled in, and no other record does; its end and whether the unit is up then are what the calls ahead say; payload and record stay in step unless given up, and a report of a rollback is right exactly as Swap says; runs after success |
| UpgradePass.Pass.UpgradeLocalRunners | internal/service/upgrade.go:78-151 | over any fleet: every row of a runner installed here, not an ephemeral one, in the org and selection asked for has its turn, in order, and is tried or left alone by what is on record at that moment; runners out of scope or left alone are as before, every upgraded one runs; every runner is where its last turn left it, and every turn took its runner from where it was to the end, and up or down, that the calls ahead of it say; recorded version and payload agree after the pass if they did before, except for runners down, dead or failed in the snapshot; the manifest history is exactly the successes; one version per org; it stops at a death, and reports one exactly when its last turn ended in one |
| UpgradePass.TurnKeeps | internal/service/upgrade.go:127-151 | one turn touches one runner and its record, and keeps all of that |
| Manifest.FindPut | internal/service/state.go:149-168 | after Put, Get of the key gives the record and of every other key what it gave, even in a slice with repeated keys |
| Manifest.FindWithout | internal/service/state.go:171-179 | after Remove, Get of the key gives nothing and of every other key what it gave |
| Manifest.PutKeepsOthers | internal/service/state.go:158-168 | Put leaves the other records as they are, in order, and grows the slice only for a new key |
| Manifest.PutAt | internal/service/state.go:158-168 | Put writes over the first record of the key in its place, or goes last |
| Manifest.WithoutUnique | internal/service/state.go:171-179 | Remove keeps exactly the records of other keys |
| Manifest.HistoryRefinesMap | internal/service/state.go:197-224 | any history of creations, upgrades and removals refines a map by kind, org and name; keys stay unique |
| Manifest.FirstCreationKept | internal/service/state.go:206-218 | a creation time survives every history that does not forget the key |
| Manifest.StateManifest.Get | internal/service/state.go:149-156 | the first record of the key |
| Manifest.StateManifest.Put | internal/service/state.go:158-168 | in place in the slice's array, or appended, growing it when full |
| Manifest.StateManifest.Remove | internal/service/state.go:171-179 | compacting the same array: what is kept, in order |
| Manifest.StateManifest.RecordCreated | internal/service/state.go:206-218 | the manifest with the creation applied |
| Text.Compact | internal/service/state.go:171-179 | filtering over the same backing array keeps exactly what the test keeps, in order, and touches nothing past the slice |
| Classify.PassLowersIff | internal/service/reconcile.go:362-381 | a fix lowers the generation on disk if and only if it cannot read a newer drop-in and writes over it, or its write is cut short with less stated, which TornLowersIff gives by the cut; it writes only its own rendering to registered idle units, and removes exactly what GitHub, having answered, does not know, when the removal takes place |
| Classify.TornLowersIff | internal/runner/orchestrator.go:1027-1029 | a write of srm's drop-in cut short lowers the generation if and only if the digits written so far make less than the drop-in on disk states; over one of the same generation, if and only if it is cut before the last digit |
| Classify.NewerTouchedIff | internal/runner/inspect.go:253-260 | a unit newer than the binary is written to if and only if it is open to a fix and cannot be read |
| Classify.UnreadableNewerIsLowered | internal/runner/inspect.go:253-260 | that happens to a healthy newer unit |
| Classify.TornWriteLosesGenerationIff | internal/runner/orchestrator.go:1027-1029 | this binary's own unit, being restarted, goes from its generation to none if and only if the write is cut before the digit of its marker |
| Classify.RunClimbsIff | internal/service/reconcile.go:434-452 | over any run of fixes by binaries that stamp their generation, whatever else they render, the generation on disk only climbs if and only if no fix is one of those |
| Classify.StaleRewritesClimb | internal/service/reconcile.go:362-381 | stale rewrites happen by strictly climbing generations: at most one for each, in runs of any length that read the drop-in and write it whole |
| Classify.UnreadableIsRewritten | internal/runner/inspect.go:253-260 | outside such runs a binary rewrites its own rendering as stale, and only when it cannot read it |
| Classify.NewestIsFinal | internal/service/reconcile.go:362-381 | once on disk, the newest rendering is never changed or found stale by such a run, whatever its length |
| Classify.NewerIsSkippedIff | internal/service/reconcile.go:355-371 | a newer unit is left alone if and only if it can be read, and taken for a stale one otherwise |
| Classify.SameGenerationFights | internal/runner/orchestrator.go:724-734 | a body changed without a new generation: two binaries taking turns rewrite the drop-in at every pass of a run of any length |
| Classify.MarkerAloneIsConformant | internal/runner/inspect.go:196-213 | a marker line added or missing is no reason to restart a healthy runner, if and only if the drop-in can be read |
| Classify.OwnRenderingConforms | internal/runner/orchestrator.go:778-802 | what a binary renders it finds conformant if and only if it can read it, for every setting of the options |
| Settings.ConformsIff | internal/runner/orchestrator.go:778-824 | a drop-in rendered for one set of options conforms to another if and only if they agree on every setting: protection, slice, user, caches and limits; a changed one is stale |
| Settings.OptionLinesAre | internal/runner/orchestrator.go:778-824 | the lines of a drop-in that depend on the options are exactly these: none for a setting that is off or a limit that is not set |
| Settings.SameLinesIff | internal/runner/orchestrator.go:778-824 | two sets of options give the same lines if and only if they agree on every setting |
| Settings.DropInLines | internal/runner/orchestrator.go:778-802 | a drop-in line by line: section, marker, fixed block, options |
| Settings.LaneLines | internal/runner/orchestrator.go:902-940 | an ephemeral unit line by line: above the marker only the description, the working directory and the command vary |
| Settings.CommandIs | internal/runner/orchestrator.go:902-917 | that command: srm in its default place or another, and a configuration only when there is one |
| Classify.LaneClassIff | internal/runner/inspect.go:96-116 | a lane's class from the text of its unit: newer if and only if it can be read and states a later generation, healthy if and only if it states none later, reads the same apart from the marker, and runs |
| Classify.OwnLaneIsHealthy | internal/runner/orchestrator.go:902-940 | this binary's own unit is healthy exactly while it runs, for every option and body |
| Classify.LaterLaneIsNewer | internal/service/reconcile.go:389-398 | a unit rendered with a later generation is newer, running or not, whatever this binary would render |
| Classify.SlotStateIff | internal/service/reconcile.go:45-63 | the label of a lane's health, exactly |
| Templates.UnitVersion | internal/runner/inspect.go:222-234 | the first marker line that states a generation |
| Templates.StripMarker | internal/runner/inspect.go:239-250 | the text without its marker lines |
| Templates.StripIdempotent | internal/runner/inspect.go:236-250 | stripping twice strips no more, and a stripped text states no generation |
| Templates.InsertedMarkerIsInvisible | internal/runner/inspect.go:236-250 | a marker line inserted anywhere does not change the stripped text |
| Templates.RenderedReads | internal/runner/inspect.go:215-234 | what is read from a rendered text: the generation its lines above the marker state first, else the one it was rendered with; never anything after the marker |
| Templates.RenderedVersionIff | internal/runner/inspect.go:215-234 | it reads back as written if and only if the lines above the marker state no generation, or that one first |
| Templates.RenderDropInVersion | internal/runner/orchestrator.go:778-802 | every drop-in states its generation |
| Templates.CutDropInReads | internal/runner/inspect.go:215-234 | what the first n characters of a drop-in state: nothing up to the digits of the marker, then the number the digits so far make, then its generation |
| Templates.EphemeralUnitVersionIff | internal/runner/orchestrator.go:902-940 | so does an ephemeral unit, if and only if the values above its marker bring in no line that states another one first |
| Templates.EphemeralUnitVersion | internal/runner/orchestrator.go:902-940 | values without a line break bring in none |
| Templates.WorkDirMisleads | internal/runner/orchestrator.go:902-940 | a working directory with a marker line in it makes the unit read as that generation |
| Reconcile.ListAllRunners | internal/service/manager.go:260-274 | the rows are exactly the runners of the orgs that answered; the failed orgs are exactly those that did not |
| Reconcile.OrphanIff | internal/service/reconcile.go:142-202 | a unit is classed an orphan if and only if GitHub answered for its org without such a runner, or the org was not in the configuration the listing was made with; a failed listing alone never does it |
| Reconcile.RemovedOrgIsOrphaned | internal/service/reconcile.go:142-163 | an org removed from the configuration between the two reads is not asked, and its units are classed orphans whatever GitHub would have said |
| Reconcile.AddedOrgIsLeftAlone | internal/service/reconcile.go:142-183 | an org added in between has no units that parse |
| Reconcile.KeysOnce | internal/service/reconcile.go:177-202 | no two units of a host parse to the same org and name |
| Reconcile.KeysAre | internal/service/reconcile.go:168-202 | the units that get a verdict are exactly those that parse to a configured org, in the org asked for if one is |
| Sorting.BeforeIff | internal/service/reconcile.go:261-266 | the order of the report, character by character: the start of a name before the name, else the smaller character where they first differ |
| Reconcile.Host.RepairRunner | internal/service/reconcile.go:415-455 | what a fix does and what it reports, for every class, busy or not, applied or planned |
| Reconcile.MaybeReapGhost | internal/service/reconcile.go:309-328 | a row is taken if and only if its name says a slot this host has, and that lane is not active, or its ledger is neither 0 nor the row's id |
| Reconcile.Host.JudgeStrays | internal/service/reconcile.go:227-258 | reaps exactly the offline, idle ephemeral rows whose lane here is down or works on another registration, deletes nothing else and nothing under dry-run; reports exactly the other strays, sparing healthy runners of other hosts |
| Reconcile.Host.Reconcile | internal/service/reconcile.go:142-284 | nothing under dry-run; GitHub only under reap, which sweeps the rows GitHub answered; a sorted report with exactly one verdict for every unit in scope, none else but on strays: a persistent unit has each class exactly when its inspection and GitHub's answer say so, a lane is newer, healthy or stuck by its own inspection alone; removes only orphans, refreshes only registered idle units that their inspection does not find newer, and carries out all that are due; reports as done only what is |
| UnitNames.ParseUnit | internal/service/reconcile.go:476-504 | the longest configured org that claims the name, or nothing if none does |
| UnitNames.ParsePrintedUnitIff | internal/service/reconcile.go:476-504 | printing then parsing is the identity if and only if no longer configured org shadows the org |
| UnitNames.ShadowNeedsDots | internal/service/reconcile.go:473-475 | shadowing takes a dot in the longer org and one in the name |
| UnitNames.ParsePrintedUnit | internal/runner/orchestrator.go:686-688 | so it is the identity for every slot, and for every name when the orgs have no dots |
| UnitNames.PrintParsedUnit | internal/service/reconcile.go:476-488 | printing what was parsed gives the unit file's name back |
| UnitNames.AnyOrderParsesAlike | internal/service/ephemeral.go:94-97 | how the sort orders orgs of the same length never matters |
| UnitNames.SlotOfMintedNameIff | internal/runner/orchestrator.go:1414-1424 | a minted name gives its slot back, whatever dashes the org has, if and only if the slot is not empty and has no dash |
| Slots.OccupiedSlots | internal/service/ephemeral.go:88-110 | the numeric slots of the org's own units |
| Slots.AllocateSlots | internal/service/ephemeral.go:112-123 | terminates on every finite set with exactly that many increasing free ids, every smaller positive id being taken or chosen, none larger than the number of ids in use |
| Slots.OccupiedUnique | internal/service/ephemeral.go:94-110 | the answer does not depend on how orgs of the same length are ordered |
| Slots.LowestUnique | internal/service/ephemeral.go:112-123 | only one list is like that |
| Slots.NewUnits | internal/service/ephemeral.go:184-193 | the allocated ids name units that do not exist, all different |
| Slots.Host.CreateEphemeralRunners | internal/service/ephemeral.go:136-226 | every lane that was there stays exactly as it was, also when creation fails part-way; the slots returned are new, and a first part of the lowest free ones; nothing else is built, but for the lane the failure stopped at |
| SubIds.RangeCount | internal/service/dind.go:80-93 | the count on the user's first line |
| SubIds.EnsureSubIDFile | internal/runner/orchestrator.go:488-524 | the file after the call, missing or not, whether it cannot be read, the write is refused, cut short or done, and whether success is reported; a file that is there and cannot be read is an error that changes nothing; a user with a line is never written for |
| SubIds.TornWriteLosesIff | internal/runner/orchestrator.go:519-523 | a write cut short loses old text if and only if it is cut before its end |
| SubIds.EnsuredText | internal/runner/orchestrator.go:472-524 | on any text: the old one is a prefix of the new one; unchanged, or one 65536-wide block from 100000 or later is appended; a second call changes nothing; the probe then sees the block |
| SubIds.ProbeAgreesIff | internal/service/dind.go:80-93 | probe and allocator agree on an existing line if and only if its count fits an int |
| SubIds.EnsuredDisjointIff | internal/runner/orchestrator.go:472-524 | on a file with disjoint ranges, a new block keeps them disjoint if and only if it ends before every range that runs past the largest int |
| SubIds.DisjointIff | internal/runner/orchestrator.go:511-518 | two ranges are disjoint if and only if no id is in both |
| SubIds.EnsuredSparesOthers | internal/runner/orchestrator.go:488-524 | no other user's probe changes |
| SubIds.EnsuredAllDisjointIff | internal/runner/orchestrator.go:459-478 | allocating for distinct users in any order keeps all ranges disjoint if and only if there is room for as many blocks as are missing |
| SubIds.EnsuredGivesBlockIff | internal/runner/orchestrator.go:488-524 | the user ends up with a block of its own if and only if it had no line, or a first line whose start is a number |
| SubIds.EnsuredAllGivesDisjointBlocks | internal/runner/orchestrator.go:459-478 | both for many users at once; with room and without malformed lines they own disjoint blocks, and no text is lost |
| SubIds.MalformedLineOwnsNothing | internal/runner/orchestrator.go:495-509 | a line with a wide count and no numeric start satisfies allocator and probe while the file holds no range at all |
| SubIds.WrappedRangeOverlaps | internal/runner/orchestrator.go:511-518 | without room a new block overlaps a wrapped range |
| Isolation.ValidUserName | internal/config/config.go:470-487 | accepts exactly the names of letters, digits, dashes and underscores that start with a letter or underscore and do not end in a dash |
| Isolation.ValidateIsolation | internal/config/config.go:449-465 | accepts exactly the configurations in which every org has a valid user no other org has |
| Isolation.AcceptedOrgsGetDisjointBlocks | internal/config/config.go:440-465 | end to end, for an accepted configuration, its orgs in any order and a file with disjoint ranges: they stay disjoint if and only if there is room, every org has a block if and only if no org's line is malformed, and with both distinct orgs own disjoint blocks |
| Isolation.DefaultUserValidIff | internal/config/config.go:190-223 | the default user of an org is valid if and only if the org has a letter or a digit |
| Isolation.RunnerUserIs | internal/config/config.go:211-223 | the service user of an org: the shared one; with a user for each org the one its first entry names, else the default |
| Isolation.SlugStretch | internal/config/config.go:194-209 | the slug is the stretch of the org from its first letter or digit to its last: letters small, digits kept, everything else a dash |
| Isolation.DefaultUsersClash | internal/config/config.go:444-448 | orgs that differ only in what becomes a dash share their default user |
| Versions.CompareVersions | internal/runner/download.go:58-76 | the sign of the first field that differs, missing fields and fields that are no number being 0 |
| Versions.CompareNumbers | internal/runner/download.go:52-87 | on versions made of any ints: -1 exactly when the first is smaller where they first differ, missing numbers being 0, 1 exactly when the second is, 0 exactly when they never differ |
| Versions.NonNumberIsZero | internal/runner/download.go:76-87 | a field that is no int compares as 0 |
| Versions.CompareOrders | internal/runner/download.go:52-87 | the function the lemmas use means the same |
| Versions.CompareEquivalent | internal/runner/download.go:52-87 | two versions compare equal if and only if they agree on every field |
| Versions.CompareFlips | internal/runner/download.go:52-87 | swapping the arguments flips the sign, on all strings |
| Versions.CompareTransitive | internal/runner/download.go:52-87 | transitive on all strings, whatever their numbers of fields, and strictly so |
| Versions.TrailingZeroField | internal/runner/download.go:52-57 | a trailing zero field does not count |
| Versions.AssetBounds | internal/runner/download.go:40-49 | prefix and suffix of an asset name never overlap, so the slice is within bounds |
| Versions.VersionOfDownloadURL | internal/runner/download.go:24-49 | the URL built from a version gives it back |
| Versions.RollbackFindsDownloadIff | internal/runner/orchestrator.go:545-551 | the forward download and the rollback use the same cache path if and only if the URL's name has no query or fragment |
| Versions.CachePathIs | internal/runner/orchestrator.go:545-551 | the cache path of a URL: its last component, slashes at the end aside, or a fixed name when it has none |
| JobLog.SanitizeSafe | internal/joblog/joblog.go:165-173 | every segment is one component that cannot leave its directory; a safe one is kept, one that names a directory becomes an underscore, and so does every separator in others |
| JobLog.PathOf | internal/joblog/joblog.go:64-82 | where a run with safe names is kept |
| JobLog.SharePathIff | internal/joblog/joblog.go:64-82 | one run overwrites another if and only if their names read the same once sanitized and their ids are equal or both not positive |
| JobLog.PathsApart | internal/joblog/joblog.go:75-82 | no log is a sidecar, and two runs share a log if and only if they share a sidecar |
| JobLog.Store.Write | internal/joblog/joblog.go:84-102 | the sidecar at the path of its own contents, HasLog set by a whole copy; every sidecar stays at its own path and every recorded log present, whatever fails; no other file is touched |
| JobLog.Store.List | internal/joblog/joblog.go:107-134 | an error when the root cannot be read, else every readable run exactly once, newest first by start, or by capture when that is not known |
| JobLog.Store.Prune | internal/joblog/joblog.go:136-163 | nothing after a listing error; else counts exactly the runs before the cutoff and the bytes of their logs, the same under dry-run, and removes exactly their files, as far as they can be removed |
| JobLog.PruneLeavesExactly | internal/joblog/joblog.go:136-163 | what is left are exactly the listed runs at or after the cutoff, each with the log it had; a second pruning finds nothing |
| JobLog.PruneSparesUnlistedIff | internal/joblog/joblog.go:121-151 | a run before the cutoff survives if and only if its id is 0, which no listing shows |
| Tail.HoldsLast | internal/runner/logs.go:217-226 | reading on from the start cell meets the last lines in order |
| Tail.WriteTail | internal/runner/logs.go:194-228 | exactly the last min(n, count) lines in order, for every input and every n, from n cells; a write error leaves a prefix of them |

## Left out

- LaneProtocol.ReaperSparesRunningCycles: for cycles that minted over an empty ledger; the exact limit is LaneProtocol.ReapKillsRunningCycleIff.
- SubIds.EnsuredAllDisjointIff: the ranges are those of the unbounded sums; a last block that starts at an int and ends past the largest one counts as disjoint.
- Slots.Host.CreateEphemeralRunners: asks that the number of units plus the count fit an int, which the source takes for granted; profiles, labels and group defaults are not part of this model.
- JobLog.Store.Write: keeps recorded logs present for callers that leave HasLog to it, as the capture path does.
- Reconcile.Host.Reconcile: unit inspection, unit listing errors, health figures and disk sizes are not modelled; a lane's state and ledger are taken as one snapshot, the interleaving being that of LaneProtocol.
- UpgradePass.Pass.UpgradeLocalRunners: the manifest is the one in memory; loading, saving and a corrupt file's error text are not modelled beyond the refusal to start.
- UpgradePass.Pass.UpgradeLocalRunners: the report on ephemeral lanes, which only says they are skipped, is not modelled.
- AgentUpgrade.RunnerHost.UpgradeRunnerAgent: download, checksum and cache of the tarball are one flag, the archive is a list of regular files, and modes, symbolic links and empty directories are not modelled.
- Classify.RunClimbsIff: `runners refresh` and the upgrade's own drop-in rewrite, which rewrite without asking, are not part of these runs.
- Templates.RenderDropInVersion: the fixed block of hardening directives is a parameter; no character of it matters.
- Templates.EphemeralUnitVersion: the body below the marker is any text; the two hardening blocks and the limits written into it are not spelled out.
- Isolation.DefaultUserValidIff: lower-casing is modelled as far as it yields an ASCII letter.
- JobLog.Store.Prune: removal of empty directories is not modelled, nor times beyond whole seconds.
- Destroying a slot while its lane runs, and draining lanes: outside the one-process-per-slot assumption.
- Windows twins of the upgrade and of the ledger: they share the snapshot helpers modelled here.
- GitHub's HTTP, authentication, encryption, archive formats, systemd, Docker start-up: foreign calls with no logic of their own; they appear as outcomes.
- Configuration files, resource limits, presets, the terminal interface and the commands: overlays and presentation.
- Times and nonces: parameters.
