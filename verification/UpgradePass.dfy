/** The serial upgrade pass over this host's persistent runners. */
module UpgradePass {
  import opened Options
  import opened AgentTree
  import opened AgentCalls
  import opened AgentUpgrade
  import opened Gates
  import opened Manifest
  import Text
  import Versions
  import UnitNames

  type Ref = (string, string)     // org and runner name

  /** A runner as GitHub lists it. */
  datatype Row = Row(ref: Ref, id: int, busy: bool)

  /** What the pass meets when it comes to a runner. */
  datatype Found = Found(
    agentId: Option<int>,         // the id in the agent's own .runner file
    fetched: Option<string>,      // the download GitHub names, when asked
    liveBusy: Option<bool>,       // the re-check before the swap
    unitInstalled: bool, verified: bool, user: string, now: string)

  datatype End = Skipped(why: Why) | NotCached | Unresolved | Attempted(outcome: Outcome)

  datatype UpgradeResult = UpgradeResult(ref: Ref, from: string, to: string, end: End) {
    predicate Is(outcome: Outcome) { end == Attempted(outcome) }

    /** The result's RolledBack field: any error but ErrRunnerDown. */
    predicate SaysRolledBack() { end.Attempted? && ReportedRestored(end.outcome) }
  }

  predicate ReportedRestored(out: Outcome) {
    out !in {Upgraded, Down} && !out.Died?
  }

  function KeyOf(ref: Ref): Key {
    Key("persistent", ref.0, ref.1)
  }

  function Recorded(rs: seq<RunnerRecord>, ref: Ref): RunnerRecord {
    var r := Find(rs, KeyOf(ref));
    if r.Some? then r.value else RunnerRecord(Key("persistent", ref.0, ref.1), 0, "", "", 0, "", "")
  }

  /** A verified tarball of a release: it unpacks to both payload directories. */
  ghost predicate Genuine(archive: seq<Entry>) {
    LeavesSnapshots(archive) && (Safe(archive) ==> forall j :: 0 <= j < |PAYLOAD| ==> Touches(archive, PAYLOAD[j]))
  }

  /** The payload on disk is complete, and is the release on record when one is. */
  ghost predicate InStep(archive: seq<Entry>, version: string, tree: Tree) {
    HasPayload(tree) && (version != "" ==> ArchivePayload(archive, tree))
  }

  /** The attempts after which nothing is promised about a runner's payload. */
  ghost predicate Lost(out: Outcome, tree: Tree) {
    out.Down? || out.Died? || (out.NotSnapshotted? && PAYLOAD[0] !in tree)
  }

  /** The record of an upgraded runner: the version it came from is kept for a rollback, an
      unknown id is filled in with the agent's own, and nothing else is lost. */
  ghost predicate RecordMoved(was: RunnerRecord, now: RunnerRecord, to: string, f: Found) {
    var id := if was.githubId != 0 then was.githubId else if f.agentId.Some? then f.agentId.value else 0;
    now == RunnerRecord(was.key, id, to, was.agentVersion, 1, was.configuredAt, f.now)
  }

  /** The manifest after a turn: this runner's record moved on if it was upgraded, and no other
      record touched. */
  ghost predicate Noted(was: seq<RunnerRecord>, now: seq<RunnerRecord>, res: UpgradeResult, f: Found) {
    && (if res.Is(Upgraded) then RecordMoved(Recorded(was, res.ref), Recorded(now, res.ref), res.to, f) else now == was)
    && forall k :: k != KeyOf(res.ref) ==> Find(now, k) == Find(was, k)
  }

  lemma StepKept(archive: seq<Entry>, version: string, t: Tree, u: Tree)
    requires InStep(archive, version, t) && SamePayload(t, u)
    ensures InStep(archive, version, u)
  {
    forall j | 0 <= j < |PAYLOAD| ensures PAYLOAD[j] in u { assert Agree(t, PAYLOAD[j], u, PAYLOAD[j]); }
    if version != "" {
      forall j | 0 <= j < |PAYLOAD| ensures HoldsArchive(archive, u, PAYLOAD[j]) {
        assert Agree(t, PAYLOAD[j], u, PAYLOAD[j]) && HoldsArchive(archive, t, PAYLOAD[j]);
        HoldsAgree(archive, t, u, PAYLOAD[j]);
      }
    }
  }

  lemma StepTaken(archive: seq<Entry>, version: string, u: Tree)
    requires Genuine(archive) && ArchivePayload(archive, u)
    ensures InStep(archive, version, u)
  {
    forall j | 0 <= j < |PAYLOAD| ensures PAYLOAD[j] in u {
      assert HoldsArchive(archive, u, PAYLOAD[j]);
    }
  }

  lemma PayloadKeptSame(t: Tree, u: Tree)
    requires PayloadKept(t, u)
    ensures SamePayload(t, u) && (HasPayload(t) ==> HasPayload(u))
  {
    forall j | 0 <= j < |PAYLOAD| ensures Agree(t, PAYLOAD[j], u, PAYLOAD[j]) {
      assert SameAt(t, u, PAYLOAD[j]);
    }
  }

  /** A rollback from a complete tree leaves the old payload. */
  lemma RolledBackWhole(t: Tree, u: Tree)
    requires HasPayload(t) && Outcomes(t, u, RolledBack)
    ensures SamePayload(t, u)
  {
    forall j | 0 <= j < |PAYLOAD| ensures Agree(t, PAYLOAD[j], u, PAYLOAD[j]) {
      assert PAYLOAD[j] in t;
    }
  }

  /** An attempt that is not lost and did not succeed leaves the old payload. */
  lemma StepSurvives(archive: seq<Entry>, version: string, was: Tree, base: Tree, tree: Tree, out: Outcome, k: nat)
    requires InStep(archive, version, was) && PayloadKept(was, base) && !Lost(out, tree)
    requires out == Refused ==> tree == was
    requires out == NotStopped ==> tree == base
    requires out == NotSnapshotted ==> k < |PAYLOAD| && Moved(base, tree, k)
    requires out == RolledBack ==> SamePayload(base, tree)
    requires out != Upgraded
    ensures InStep(archive, version, tree)
  {
    PayloadKeptSame(was, base);
    StepKept(archive, version, was, base);
    if out == NotSnapshotted {
      assert k == 0;
      assert PayloadKept(base, tree);
      PayloadKeptSame(base, tree);
    }
    if out in {NotSnapshotted, RolledBack} {
      StepKept(archive, version, base, tree);
    }
  }

  /** A runner said to be restored has its payload exactly when no half snapshot cost it. */
  lemma RestoredIff(archive: seq<Entry>, version: string, was: Tree, base: Tree, tree: Tree, out: Outcome, k: nat,
                    loses: bool)
    requires ReportedRestored(out) && InStep(archive, version, was) && PayloadKept(was, base)
    requires out == Refused ==> tree == was && !loses
    requires out == NotStopped ==> tree == base
    requires out == NotSnapshotted ==> k < |PAYLOAD| && Moved(base, tree, k)
    requires out == RolledBack ==> SamePayload(base, tree)
    requires out != Refused ==> (out == NotSnapshotted && !SamePayload(base, tree) <==> loses)
    ensures InStep(archive, version, tree) <==> !loses
  {
    if !Lost(out, tree) {
      StepSurvives(archive, version, was, base, tree, out, k);
    }
    if out == NotSnapshotted {
      PayloadKeptSame(was, base);
      MovedIntactIff(base, tree, k);
    }
  }

  /** What an attempt from release `a` to release `b` means for the payload on record. */
  lemma AttemptKeeps(a: seq<Entry>, from: string, b: seq<Entry>, to: string, was: Tree, base: Tree, tree: Tree,
                     out: Outcome, k: nat, loses: bool)
    requires Genuine(b) && (HasPayload(was) ==> PayloadKept(was, base)) && Outcomes(base, tree, out)
    requires out == Refused ==> tree == was && !loses
    requires out == NotStopped ==> tree == base
    requires out == NotSnapshotted ==> k < |PAYLOAD| && Moved(base, tree, k)
    requires out == Upgraded ==> ArchivePayload(b, tree)
    requires out != Refused ==> (out == NotSnapshotted && !SamePayload(base, tree) <==> loses)
    ensures InStep(a, from, was) && !Lost(out, tree) ==>
              if out.Upgraded? then InStep(b, to, tree) else InStep(a, from, tree)
    ensures InStep(a, from, was) && ReportedRestored(out) ==> (InStep(a, from, tree) <==> !loses)
  {
    if InStep(a, from, was) {
      PayloadKeptSame(was, base);
      if out == RolledBack { RolledBackWhole(base, tree); }
      if ReportedRestored(out) { RestoredIff(a, from, was, base, tree, out, k, loses); }
      if out.Upgraded? {
        StepTaken(b, to, tree);
      } else if !Lost(out, tree) {
        StepSurvives(a, from, was, base, tree, out, k);
      }
    }
  }

  /** A runner at one moment: its tree, its unit, and the calls ahead of it. */
  datatype Shot = Shot(tree: Tree, running: bool, clock: nat, oracle: Calls) {
    ghost predicate LastFailed() { clock > 0 && !oracle(clock - 1).Fine? }
  }

  ghost function ShotOf(h: RunnerHost): Shot
    reads h
  {
    Shot(h.tree, h.running, h.clock, h.oracle)
  }

  /** A runner whose attempt is over: up after success; otherwise down only by a stop or a
      start that did not work, or because it was down before. */
  ghost predicate Standing(s: Shot, out: Outcome, before: bool) {
    (out == Upgraded ==> s.running) &&
    (!out.Died? && (out != Refused || before) ==> s.running || s.LastFailed())
  }

  /** How an attempt ends and whether the unit is up then, by the calls ahead of it. */
  ghost predicate Foretold(before: Shot, after: Shot, out: Outcome, archive: seq<Entry>) {
    out != Refused ==>
      End(out, after.running) == Ahead(before.oracle, before.tree, before.running, before.clock, archive)
  }

  // ---------------------------------------------------------------- what a pass keeps

  /** How the last attempt on a runner ended, if there was one. */
  function LastOutcome(results: seq<UpgradeResult>, ref: Ref): Option<Outcome> {
    if results == [] then None
    else
      var r := results[|results| - 1];
      if r.ref == ref && r.end.Attempted? then Some(r.end.outcome) else LastOutcome(results[..|results| - 1], ref)
  }

  lemma LastOutcomeNext(results: seq<UpgradeResult>, res: UpgradeResult)
    ensures forall ref :: LastOutcome(results + [res], ref) ==
              if res.ref == ref && res.end.Attempted? then Some(res.end.outcome) else LastOutcome(results, ref)
  {
    assert (results + [res])[..|results|] == results;
  }

  predicate InScope(opts: UpgradeOpts, ref: Ref) {
    && !Text.HasPrefix(ref.1, UnitNames.NAME_PREFIX)
    && (opts.filter == "" || ref.0 == opts.filter)
    && (opts.only == {} || ref in opts.only)
  }

  /** A runner's turn: its row, what the pass met, the download of its org, and how many
      upgrades were on record by then. */
  datatype Decision = Decision(row: Row, found: Found, url: Option<string>, at: nat)

  /** The recorded id, or the agent's own when none is recorded, and the live one are both
      known and differ. */
  predicate OtherHosts(rec: RunnerRecord, f: Found, liveId: int) {
    var known := if rec.githubId != 0 then rec.githubId else if f.agentId.Some? then f.agentId.value else 0;
    known != 0 && liveId != 0 && known != liveId
  }

  /** What there is to install, if there is anything: the cached version before for a rollback,
      the org's download otherwise. */
  function Aim(opts: UpgradeOpts, cache: set<string>, rec: RunnerRecord, url: Option<string>): Option<string> {
    var v := rec.previousVersion;
    if opts.rollback then
      if v != "" && Versions.CachePath(Versions.DownloadURL(v)) in cache then Some(v) else None
    else if url.Some? then Some(Versions.Version(url.value)) else None
  }

  /** The version its row of the report names as the target: none before one is looked for. */
  function Shown(opts: UpgradeOpts, rec: RunnerRecord, row: Row, f: Found, url: Option<string>): string {
    if row.busy || OtherHosts(rec, f, row.id) then ""
    else if opts.rollback then rec.previousVersion
    else if url.Some? then Versions.Version(url.value)
    else ""
  }

  /** What becomes of a runner's turn; None when it is tried. */
  function Ruling(opts: UpgradeOpts, cache: set<string>, rec: RunnerRecord, row: Row, f: Found, url: Option<string>):
    Option<End>
  {
    var from, to := rec.agentVersion, Aim(opts, cache, rec, url);
    if row.busy then Some(Skipped(Busy))
    else if OtherHosts(rec, f, row.id) then Some(Skipped(IdMismatch))
    else if to.None? then
      Some(if !opts.rollback then Unresolved else if rec.previousVersion == "" then Skipped(NoPrevious) else NotCached)
    else if from != "" && !opts.force && to.value == from then Some(Skipped(AtTarget))
    else if from != "" && !opts.force && !opts.rollback && to.value != "" && Versions.Compare(to.value, from) < 0 then
      Some(Skipped(Downgrade))
    else if opts.dryRun then Some(Skipped(DryRun))
    else if f.liveBusy == Some(true) then Some(Skipped(BecameBusy))
    else None
  }

  /** Every reason is given exactly when it applies, and none tested before it does. */
  lemma RulingIff(opts: UpgradeOpts, cache: set<string>, rec: RunnerRecord, row: Row, f: Found, url: Option<string>)
    ensures var r, to, from := Ruling(opts, cache, rec, row, f, url), Aim(opts, cache, rec, url), rec.agentVersion;
      var free := !row.busy && !OtherHosts(rec, f, row.id);
      var same := to.Some? && from != "" && from == to.value && !opts.force;
      var older := to.Some? && from != "" && to.value != "" && Versions.Compare(to.value, from) < 0 &&
                   !opts.force && !opts.rollback;
      && (r == Some(Skipped(Busy)) <==> row.busy)
      && (r == Some(Skipped(IdMismatch)) <==> !row.busy && OtherHosts(rec, f, row.id))
      && (r == Some(Unresolved) <==> free && to.None? && !opts.rollback)
      && (r == Some(Skipped(NoPrevious)) <==> free && opts.rollback && rec.previousVersion == "")
      && (r == Some(NotCached) <==> free && to.None? && opts.rollback && rec.previousVersion != "")
      && (r == Some(Skipped(AtTarget)) <==> free && same)
      && (r == Some(Skipped(Downgrade)) <==> free && !same && older)
      && (r == Some(Skipped(DryRun)) <==> free && to.Some? && !same && !older && opts.dryRun)
      && (r == Some(Skipped(BecameBusy)) <==>
            free && to.Some? && !same && !older && !opts.dryRun && f.liveBusy == Some(true))
      && (r == None <==> free && to.Some? && !same && !older && !opts.dryRun && f.liveBusy != Some(true))
  {}

  /** A turn's result is the ruling on what is on record and what the pass met. */
  ghost predicate Decides(opts: UpgradeOpts, cache: set<string>, rec: RunnerRecord, d: Decision, res: UpgradeResult) {
    && res.ref == d.row.ref && res.from == rec.agentVersion
    && Ruling(opts, cache, rec, d.row, d.found, d.url) == (if res.end.Attempted? then None else Some(res.end))
    && res.to == Shown(opts, rec, d.row, d.found, d.url)
    && (res.end.Attempted? ==> Aim(opts, cache, rec, d.url) == Some(res.to))
  }

  /** Whose runner it is decides over every result: a tried one has an id that is unknown on one
      side or the same on both, and a mismatch is reported exactly when it is there. */
  lemma IdsDecide(opts: UpgradeOpts, cache: set<string>, results: seq<UpgradeResult>, h: History, i: nat)
    requires AllDecided(opts, cache, results, h) && i < |results|
    ensures h.turns[i].at <= |h.ops| && |h.turns| == |results|
    ensures var d := h.turns[i];
      var rec := Recorded(ApplyAll(h.rs, h.ops[..d.at]), d.row.ref);
      var own := if d.found.agentId.Some? then d.found.agentId.value else 0;
      var known := if rec.githubId != 0 then rec.githubId else own;
      && (results[i].end.Attempted? ==> known == 0 || d.row.id == 0 || known == d.row.id)
      && (results[i].end == Skipped(IdMismatch) <==>
            !d.row.busy && known != 0 && d.row.id != 0 && known != d.row.id)
  {
    var d := h.turns[i];
    var rec := Recorded(ApplyAll(h.rs, h.ops[..d.at]), d.row.ref);
    assert Decides(opts, cache, rec, d, results[i]);
    RulingIff(opts, cache, rec, d.row, d.found, d.url);
  }

  ghost predicate AllDecided(opts: UpgradeOpts, cache: set<string>, results: seq<UpgradeResult>, h: History) {
    |h.turns| == |results| &&
    forall i :: 0 <= i < |results| ==> var d := h.turns[i];
      d.at <= |h.ops| && Decides(opts, cache, Recorded(ApplyAll(h.rs, h.ops[..d.at]), d.row.ref), d, results[i])
  }

  function Rows(turns: seq<Decision>): seq<Row> {
    seq(|turns|, i requires 0 <= i < |turns| => turns[i].row)
  }

  /** The rows a pass takes: this host's runners in scope. */
  function InTurn(opts: UpgradeOpts, here: set<Ref>): Row -> seq<Row> {
    (row: Row) => if row.ref in here && InScope(opts, row.ref) then [row] else []
  }

  /** So these are its turns: every row of a runner installed here whose name is not that of an
      ephemeral registration, in the org and the selection asked for. */
  lemma RowsInTurn(opts: UpgradeOpts, here: set<Ref>, rows: seq<Row>)
    ensures forall row :: row in Text.Collect(rows, InTurn(opts, here)) <==>
              && row in rows && row.ref in here && !("srm-eph-" <= row.ref.1)
              && (opts.filter == "" || row.ref.0 == opts.filter) && (opts.only != {} ==> row.ref in opts.only)
  {
    var f := InTurn(opts, here);
    forall row ensures row in Text.Collect(rows, f) <==> row in rows && row in f(row) {
      Text.CollectMember(rows, f, row);
    }
  }

  lemma Upto<T, U>(s: seq<T>, i: nat, f: T -> seq<U>)
    requires i <= |s|
    ensures Text.Collect(s[..i], f) <= Text.Collect(s, f)
  {
    assert s == s[..i] + s[i..];
    Text.CollectAppend(s[..i], s[i..], f);
  }

  lemma AllDecidedNext(opts: UpgradeOpts, cache: set<string>, results: seq<UpgradeResult>, h: History, d: Decision,
                       res: UpgradeResult, more: seq<Op>, after: Shot)
    requires AllDecided(opts, cache, results, h) && d.at == |h.ops|
    requires Decides(opts, cache, Recorded(ApplyAll(h.rs, h.ops), d.row.ref), d.(at := 0), res)
    ensures AllDecided(opts, cache, results + [res], Turned(h, d, res, more, after))
    ensures Rows(h.turns + [d]) == Rows(h.turns) + [d.row]
  {
    var next := Turned(h, d, res, more, after);
    forall i | 0 <= i < |results| + 1
      ensures var e := next.turns[i];
        e.at <= |next.ops| &&
        Decides(opts, cache, Recorded(ApplyAll(next.rs, next.ops[..e.at]), e.row.ref), e, (results + [res])[i])
    {
      var e := next.turns[i];
      if i < |results| {
        assert next.ops[..e.at] == h.ops[..e.at];
      } else {
        assert next.ops[..e.at] == h.ops;
      }
    }
  }

  /** Where a pass started, and what it has done: the manifest history, and the runners whose
      payload an attempt gave up. */
  datatype History = History(rs: seq<RunnerRecord>, was: map<Ref, Shot>, ops: seq<Op>, lost: set<Ref>,
                             turns: seq<Decision>, afters: seq<Shot>)

  /** What holds of a runner between two turns: not tried and as it was, or done with. */
  ghost predicate Quiet(opts: UpgradeOpts, results: seq<UpgradeResult>, ref: Ref, was: Shot, now: Shot) {
    var out := LastOutcome(results, ref);
    if out.None? then now == was
    else InScope(opts, ref) && !opts.dryRun && Standing(now, out.value, was.running)
  }

  ghost predicate InStepNow(releases: string -> seq<Entry>, rs: seq<RunnerRecord>, ref: Ref, tree: Tree) {
    var v := VersionOf(rs, KeyOf(ref));
    InStep(releases(v), v, tree)
  }

  ghost predicate UpgradedAmong(results: seq<UpgradeResult>, op: Op)
    requires op.Upgrade?
  {
    exists r :: r in results && r.Is(Upgraded) && op.key == KeyOf(r.ref) && op.to == r.to
  }

  ghost predicate RecordedAmong(ops: seq<Op>, r: UpgradeResult) {
    exists op :: op in ops && op.Upgrade? && op.key == KeyOf(r.ref) && op.to == r.to
  }

  /** The manifest history of a pass: its entries are the upgrades that succeeded, and without
      force and rollback every one was let through by the version gates. */
  ghost predicate Accounts(opts: UpgradeOpts, results: seq<UpgradeResult>, rs: seq<RunnerRecord>, ops: seq<Op>) {
    && (forall op :: op in ops ==> op.Upgrade? && UpgradedAmong(results, op))
    && (forall r :: r in results && r.Is(Upgraded) ==> RecordedAmong(ops, r))
    && (!opts.force && !opts.rollback ==> Climbs(rs, ops))
  }

  ghost predicate AllQuiet(opts: UpgradeOpts, results: seq<UpgradeResult>, was: map<Ref, Shot>, now: map<Ref, Shot>) {
    now.Keys == was.Keys && forall ref :: ref in now ==> Quiet(opts, results, ref, was[ref], now[ref])
  }

  /** A payload in step with its record at the start is so still, unless given up. */
  ghost predicate StaysInStep(releases: string -> seq<Entry>, h: History, ref: Ref, rs: seq<RunnerRecord>, now: Shot)
    requires ref in h.was
  {
    ref !in h.lost && InStepNow(releases, h.rs, ref, h.was[ref].tree) ==> InStepNow(releases, rs, ref, now.tree)
  }

  ghost predicate AllInStep(releases: string -> seq<Entry>, results: seq<UpgradeResult>, h: History,
                            rs: seq<RunnerRecord>, now: map<Ref, Shot>)
    requires now.Keys == h.was.Keys
  {
    (forall ref :: ref in now ==> StaysInStep(releases, h, ref, rs, now[ref])) &&
    (forall ref :: ref in h.lost ==> LossAmong(results, ref))
  }

  /** What a pass keeps from turn to turn. */
  ghost predicate Kept(opts: UpgradeOpts, releases: string -> seq<Entry>, results: seq<UpgradeResult>, h: History,
                       rs: seq<RunnerRecord>, now: map<Ref, Shot>)
  {
    && AllQuiet(opts, results, h.was, now)
    && AllInStep(releases, results, h, rs, now)
    && rs == ApplyAll(h.rs, h.ops) && Accounts(opts, results, h.rs, h.ops)
  }

  /** What a forward pass installs is its org's remembered download. */
  ghost predicate Memo(opts: UpgradeOpts, dl: map<string, string>, results: seq<UpgradeResult>) {
    !opts.rollback ==> forall res :: res in results && res.end.Attempted? ==>
      res.ref.0 in dl && res.to == Versions.Version(dl[res.ref.0])
  }

  lemma MemoNext(opts: UpgradeOpts, dl: map<string, string>, next: map<string, string>, results: seq<UpgradeResult>,
                 res: UpgradeResult)
    requires Memo(opts, dl, results) && forall o :: o in dl ==> o in next && next[o] == dl[o]
    requires res.end.Attempted? && !opts.rollback ==> res.ref.0 in next && res.to == Versions.Version(next[res.ref.0])
    ensures Memo(opts, next, results + [res])
  {}

  /** All the swaps of a forward pass in one org install the same version. */
  ghost predicate OneTargetPerOrg(opts: UpgradeOpts, results: seq<UpgradeResult>) {
    !opts.rollback ==>
      forall a, b :: a in results && b in results && a.end.Attempted? && b.end.Attempted? && a.ref.0 == b.ref.0 ==>
      a.to == b.to
  }

  lemma MemoOneTarget(opts: UpgradeOpts, dl: map<string, string>, results: seq<UpgradeResult>)
    requires Memo(opts, dl, results)
    ensures OneTargetPerOrg(opts, results)
  {}

  /** What one turn says of the runner it was about. */
  ghost predicate TurnOf(opts: UpgradeOpts, releases: string -> seq<Entry>, rs: seq<RunnerRecord>, before: Shot,
                         res: UpgradeResult, more: seq<Op>, after: Shot)
  {
    var v, w := VersionOf(rs, KeyOf(res.ref)), VersionOf(ApplyAll(rs, more), KeyOf(res.ref));
    && InScope(opts, res.ref)
    && (!res.end.Attempted? || res.Is(Refused) ==> after == before)
    && (res.end.Attempted? ==> !opts.dryRun && Standing(after, res.end.outcome, before.running))
    && (res.end.Attempted? ==> Foretold(before, after, res.end.outcome, releases(res.to)))
    && (InStep(releases(v), v, before.tree) && !(res.end.Attempted? && Lost(res.end.outcome, after.tree)) ==>
          InStep(releases(w), w, after.tree))
    && (if res.Is(Upgraded) then
          |more| == 1 && more[0].Upgrade? && more[0].key == KeyOf(res.ref) && more[0].to == res.to &&
          VersionGateSkip(v, res.to, opts.force, opts.rollback).None?
        else more == [])
  }

  /** What is promised of a swap beside where it ends: with no fault it succeeds, and a runner
      said to be restored is, unless the calls ahead half-way snapshot it. */
  ghost predicate Fared(releases: string -> seq<Entry>, f: Found, before: Shot, after: Shot, res: UpgradeResult) {
    var from := releases(res.from);
    var ready := f.unitInstalled && f.verified && ".runner" in before.tree;
    && (ready && FineBetween(before, after) && Safe(releases(res.to)) ==> res.Is(Upgraded))
    && (InStep(from, res.from, before.tree) && res.SaysRolledBack() ==>
          (InStep(from, res.from, after.tree) <==>
           res.Is(Refused) || !LosesPayload(before.oracle, before.tree, before.clock)))
  }

  /** The two together, from what the upgrade says of the trees. */
  lemma AttemptMeans(releases: string -> seq<Entry>, from: string, to: string, f: Found, before: Shot, after: Shot,
                     base: Tree, out: Outcome, k: nat, ref: Ref)
    requires Genuine(releases(to)) && (HasPayload(before.tree) ==> PayloadKept(before.tree, base))
    requires Outcomes(base, after.tree, out) && (out == Refused ==> after == before)
    requires out == NotStopped ==> after.tree == base
    requires out == NotSnapshotted ==> k < |PAYLOAD| && Moved(base, after.tree, k)
    requires out == Upgraded ==> ArchivePayload(releases(to), after.tree)
    requires out != Refused ==>
               (out == NotSnapshotted && !SamePayload(base, after.tree) <==>
                LosesPayload(before.oracle, before.tree, before.clock))
    requires out == Refused <==> !f.unitInstalled || ".runner" !in before.tree || !f.verified
    requires out != Refused && FineBetween(before, after) && Safe(releases(to)) ==> out == Upgraded
    requires Standing(after, out, before.running) && Foretold(before, after, out, releases(to))
    ensures Outlook(releases, from, to, before, out, after)
    ensures Fared(releases, f, before, after, UpgradeResult(ref, from, to, Attempted(out)))
  {
    AttemptKeeps(releases(from), from, releases(to), to, before.tree, base, after.tree, out, k,
                 out != Refused && LosesPayload(before.oracle, before.tree, before.clock));
  }

  /** No call in between failed. */
  ghost predicate FineBetween(before: Shot, after: Shot) {
    forall n: nat :: before.clock <= n < after.clock ==> after.oracle(n).Fine?
  }

  /** One turn: what it says of the runner, what it recorded, and how a swap fared. */
  ghost predicate TurnTaken(opts: UpgradeOpts, releases: string -> seq<Entry>, rs: seq<RunnerRecord>, before: Shot,
                          f: Found, res: UpgradeResult, more: seq<Op>, after: Shot)
  {
    && TurnOf(opts, releases, rs, before, res, more, after)
    && Noted(rs, ApplyAll(rs, more), res, f)
    && (res.end.Attempted? ==> Fared(releases, f, before, after, res))
  }

  /** A runner that was left alone. */
  lemma TurnIdle(opts: UpgradeOpts, releases: string -> seq<Entry>, rs: seq<RunnerRecord>, shot: Shot, f: Found,
                 res: UpgradeResult)
    requires InScope(opts, res.ref) && !res.end.Attempted?
    ensures TurnTaken(opts, releases, rs, shot, f, res, [], shot)
  {}

  /** One that was tried, the record following the outcome. */
  lemma TurnTried(opts: UpgradeOpts, releases: string -> seq<Entry>, rs: seq<RunnerRecord>, before: Shot, f: Found,
                  res: UpgradeResult, more: seq<Op>, after: Shot)
    requires InScope(opts, res.ref) && res.end.Attempted? && !opts.dryRun
    requires res.from == VersionOf(rs, KeyOf(res.ref))
    requires Outlook(releases, res.from, res.to, before, res.end.outcome, after)
    requires VersionGateSkip(res.from, res.to, opts.force, opts.rollback).None?
    requires if res.Is(Upgraded)
             then |more| == 1 && more[0].Upgrade? && more[0].key == KeyOf(res.ref) && more[0].to == res.to
             else more == []
    requires Noted(rs, ApplyAll(rs, more), res, f) && Fared(releases, f, before, after, res)
    ensures TurnTaken(opts, releases, rs, before, f, res, more, after)
  {
    if res.Is(Upgraded) {
      assert more == [more[0]];
      OneUpgrade(rs, more[0]);
    }
  }

  /** What a swap says of the runner, seen from the manifest. */
  ghost predicate Outlook(releases: string -> seq<Entry>, from: string, to: string, before: Shot, out: Outcome,
                          after: Shot)
  {
    && (out == Refused ==> after == before)
    && Standing(after, out, before.running) && Foretold(before, after, out, releases(to))
    && (InStep(releases(from), from, before.tree) && !Lost(out, after.tree) ==>
          var v := if out.Upgraded? then to else from; InStep(releases(v), v, after.tree))
  }

  lemma TurnQuiet(opts: UpgradeOpts, releases: string -> seq<Entry>, results: seq<UpgradeResult>, rs: seq<RunnerRecord>,
                  was: Shot, before: Shot, res: UpgradeResult, more: seq<Op>, after: Shot)
    requires TurnOf(opts, releases, rs, before, res, more, after)
    requires Quiet(opts, results, res.ref, was, before)
    requires LastOutcome(results, res.ref).Some? ==> !LastOutcome(results, res.ref).value.Died?
    ensures Quiet(opts, results + [res], res.ref, was, after)
  {
    LastOutcomeNext(results, res);
  }

  lemma TurnAccounts(opts: UpgradeOpts, releases: string -> seq<Entry>, results: seq<UpgradeResult>,
                     rs0: seq<RunnerRecord>, ops: seq<Op>,
                     before: Shot, res: UpgradeResult, more: seq<Op>, after: Shot)
    requires TurnOf(opts, releases, ApplyAll(rs0, ops), before, res, more, after)
    requires Accounts(opts, results, rs0, ops)
    ensures Accounts(opts, results + [res], rs0, ops + more)
    ensures ApplyAll(rs0, ops + more) == ApplyAll(ApplyAll(rs0, ops), more)
  {
    ApplyAllAppend(rs0, ops, more);
    ClimbsAppend(rs0, ops, more);
    AmongNext(results, ops, res, more);
  }

  lemma AmongNext(results: seq<UpgradeResult>, ops: seq<Op>, res: UpgradeResult, more: seq<Op>)
    requires forall op :: op in ops ==> op.Upgrade? && UpgradedAmong(results, op)
    requires forall r :: r in results && r.Is(Upgraded) ==> RecordedAmong(ops, r)
    requires if res.Is(Upgraded) then
               |more| == 1 && more[0].Upgrade? && more[0].key == KeyOf(res.ref) && more[0].to == res.to
             else more == []
    ensures forall op :: op in ops + more ==> op.Upgrade? && UpgradedAmong(results + [res], op)
    ensures forall r :: r in results + [res] && r.Is(Upgraded) ==> RecordedAmong(ops + more, r)
  {
    forall op | op in ops + more ensures op.Upgrade? && UpgradedAmong(results + [res], op) {
      if op in ops {
        var r :| r in results && r.Is(Upgraded) && op.key == KeyOf(r.ref) && op.to == r.to;
        assert r in results + [res];
      } else {
        assert res in results + [res];
      }
    }
    forall r | r in results + [res] && r.Is(Upgraded) ensures RecordedAmong(ops + more, r) {
      if r in results {
        var op :| op in ops && op.Upgrade? && op.key == KeyOf(r.ref) && op.to == r.to;
        assert op in ops + more;
      } else {
        assert more[0] in ops + more;
      }
    }
  }

  /** A turn touches no other runner's record. */
  lemma OthersRecorded(rs: seq<RunnerRecord>, more: seq<Op>, ref: Ref, other: Ref)
    requires |more| <= 1 && (more != [] ==> more[0].Upgrade? && more[0].key == KeyOf(ref)) && ref != other
    ensures VersionOf(ApplyAll(rs, more), KeyOf(other)) == VersionOf(rs, KeyOf(other))
  {
    if more != [] {
      assert more == [more[0]];
      OneUpgrade(rs, more[0]);
      UpgradeVersions(rs, more[0], KeyOf(other));
    }
  }

  /** The process died in the last turn there was. */
  predicate EndsDead(results: seq<UpgradeResult>) {
    results != [] && results[|results| - 1].end.Attempted? && results[|results| - 1].end.outcome.Died?
  }

  ghost predicate NoneDied(results: seq<UpgradeResult>) {
    forall ref :: LastOutcome(results, ref).Some? ==> !LastOutcome(results, ref).value.Died?
  }

  lemma TurnAllQuiet(opts: UpgradeOpts, releases: string -> seq<Entry>, results: seq<UpgradeResult>,
                     rs: seq<RunnerRecord>,
                     was: map<Ref, Shot>, now: map<Ref, Shot>, res: UpgradeResult, more: seq<Op>, after: Shot)
    requires AllQuiet(opts, results, was, now) && res.ref in now && NoneDied(results)
    requires TurnOf(opts, releases, rs, now[res.ref], res, more, after)
    ensures AllQuiet(opts, results + [res], was, now[res.ref := after])
    ensures !(res.end.Attempted? && res.end.outcome.Died?) ==> NoneDied(results + [res])
  {
    LastOutcomeNext(results, res);
    TurnQuiet(opts, releases, results, rs, was[res.ref], now[res.ref], res, more, after);
    forall ref | ref in now && ref != res.ref ensures Quiet(opts, results + [res], ref, was[ref], now[ref]) {
      assert Quiet(opts, results, ref, was[ref], now[ref]);
    }
  }

  /** The history after a turn. */
  ghost function Turned(h: History, d: Decision, res: UpgradeResult, more: seq<Op>, after: Shot): History {
    h.(ops := h.ops + more, turns := h.turns + [d], afters := h.afters + [after],
       lost := if res.end.Attempted? && Lost(res.end.outcome, after.tree) then h.lost + {res.ref} else h.lost)
  }

  lemma TurnAllInStep(opts: UpgradeOpts, releases: string -> seq<Entry>, results: seq<UpgradeResult>, h: History,
                      rs: seq<RunnerRecord>, now: map<Ref, Shot>, d: Decision, res: UpgradeResult, more: seq<Op>,
                      after: Shot)
    requires now.Keys == h.was.Keys && AllInStep(releases, results, h, rs, now) && res.ref in now
    requires TurnOf(opts, releases, rs, now[res.ref], res, more, after)
    ensures AllInStep(releases, results + [res], Turned(h, d, res, more, after), ApplyAll(rs, more),
                      now[res.ref := after])
  {
    var next := Turned(h, d, res, more, after);
    forall ref | ref in now ensures StaysInStep(releases, next, ref, ApplyAll(rs, more), now[res.ref := after][ref]) {
      assert StaysInStep(releases, h, ref, rs, now[ref]);
      if ref != res.ref { OthersRecorded(rs, more, res.ref, ref); }
    }
    forall ref | ref in next.lost ensures LossAmong(results + [res], ref) {
      if ref in h.lost {
        var r :| r in results && Loses(r, ref);
        assert r in results + [res] && Loses(r, ref);
      } else {
        assert res in results + [res] && Loses(res, ref);
      }
    }
  }

  lemma TurnKeeps(opts: UpgradeOpts, releases: string -> seq<Entry>, results: seq<UpgradeResult>, h: History,
                  rs: seq<RunnerRecord>, now: map<Ref, Shot>, d: Decision, res: UpgradeResult, more: seq<Op>,
                  after: Shot)
    requires Kept(opts, releases, results, h, rs, now) && res.ref in now && NoneDied(results)
    requires TurnOf(opts, releases, rs, now[res.ref], res, more, after)
    ensures Kept(opts, releases, results + [res], Turned(h, d, res, more, after), ApplyAll(rs, more),
                 now[res.ref := after])
    ensures !(res.end.Attempted? && res.end.outcome.Died?) ==> NoneDied(results + [res])
  {
    TurnAccounts(opts, releases, results, h.rs, h.ops, now[res.ref], res, more, after);
    TurnAllQuiet(opts, releases, results, rs, h.was, now, res, more, after);
    TurnAllInStep(opts, releases, results, h, rs, now, d, res, more, after);
  }

  /** A runner's state after these turns: what its last turn left, or where it started. */
  ghost function StateAt(was: map<Ref, Shot>, results: seq<UpgradeResult>, afters: seq<Shot>, ref: Ref): Shot
    requires |results| == |afters| && ref in was
  {
    if results == [] then was[ref]
    else
      var n := |results| - 1;
      if results[n].ref == ref then afters[n] else StateAt(was, results[..n], afters[..n], ref)
  }

  /** One turn, from state to state. */
  ghost predicate Passage(releases: string -> seq<Entry>, res: UpgradeResult, before: Shot, after: Shot) {
    if res.end.Attempted? then Foretold(before, after, res.end.outcome, releases(res.to)) else after == before
  }

  /** The i-th turn took its runner from where the turns before it had left it. */
  ghost predicate PassageAt(releases: string -> seq<Entry>, was: map<Ref, Shot>, results: seq<UpgradeResult>,
                            afters: seq<Shot>, i: nat)
    requires |afters| == |results| && i < |results|
  {
    results[i].ref in was &&
    Passage(releases, results[i], StateAt(was, results[..i], afters[..i], results[i].ref), afters[i])
  }

  /** The pass as it happened: every runner is where its last turn left it, and every turn
      ended as the calls ahead of it say. */
  ghost predicate Traced(releases: string -> seq<Entry>, results: seq<UpgradeResult>, was: map<Ref, Shot>,
                         afters: seq<Shot>, now: map<Ref, Shot>)
  {
    && |afters| == |results| && now.Keys == was.Keys
    && (forall ref :: ref in now ==> now[ref] == StateAt(was, results, afters, ref))
    && (forall i :: 0 <= i < |results| ==> PassageAt(releases, was, results, afters, i))
  }

  lemma StateNext(was: map<Ref, Shot>, results: seq<UpgradeResult>, afters: seq<Shot>, res: UpgradeResult, after: Shot,
                  ref: Ref)
    requires |results| == |afters| && ref in was
    ensures StateAt(was, results + [res], afters + [after], ref) ==
            if res.ref == ref then after else StateAt(was, results, afters, ref)
  {
    assert (results + [res])[..|results|] == results && (afters + [after])[..|afters|] == afters;
  }

  lemma PassageKept(releases: string -> seq<Entry>, was: map<Ref, Shot>, results: seq<UpgradeResult>,
                    afters: seq<Shot>, res: UpgradeResult, after: Shot, i: nat)
    requires |afters| == |results| && i < |results| && PassageAt(releases, was, results, afters, i)
    ensures PassageAt(releases, was, results + [res], afters + [after], i)
  {
    assert (results + [res])[..i] == results[..i] && (afters + [after])[..i] == afters[..i];
  }

  lemma TracedNext(releases: string -> seq<Entry>, results: seq<UpgradeResult>, was: map<Ref, Shot>, afters: seq<Shot>,
                   now: map<Ref, Shot>, res: UpgradeResult, after: Shot)
    requires Traced(releases, results, was, afters, now) && res.ref in now
    requires Passage(releases, res, now[res.ref], after)
    ensures Traced(releases, results + [res], was, afters + [after], now[res.ref := after])
  {
    var all, shots, next := results + [res], afters + [after], now[res.ref := after];
    forall ref | ref in next ensures next[ref] == StateAt(was, all, shots, ref) {
      StateNext(was, results, afters, res, after, ref);
    }
    forall i | 0 <= i < |all| ensures PassageAt(releases, was, all, shots, i) {
      if i < |results| {
        PassageKept(releases, was, results, afters, res, after, i);
      } else {
        assert all[..i] == results && shots[..i] == afters;
      }
    }
  }

  lemma TurnKeepsAll(opts: UpgradeOpts, releases: string -> seq<Entry>, cache: set<string>,
                     results: seq<UpgradeResult>, h: History,
                     rs: seq<RunnerRecord>, now: map<Ref, Shot>, d: Decision, res: UpgradeResult, more: seq<Op>,
                     after: Shot)
    requires Kept(opts, releases, results, h, rs, now) && res.ref in now && NoneDied(results)
    requires TurnOf(opts, releases, rs, now[res.ref], res, more, after)
    requires AllDecided(opts, cache, results, h) && d.at == |h.ops|
    requires Decides(opts, cache, Recorded(rs, d.row.ref), d.(at := 0), res)
    ensures var next := Turned(h, d, res, more, after);
      && Kept(opts, releases, results + [res], next, ApplyAll(rs, more), now[res.ref := after])
      && AllDecided(opts, cache, results + [res], next) && Rows(next.turns) == Rows(h.turns) + [d.row]
    ensures !(res.end.Attempted? && res.end.outcome.Died?) ==> NoneDied(results + [res])
  {
    AllDecidedNext(opts, cache, results, h, d, res, more, after);
    TurnKeeps(opts, releases, results, h, rs, now, d, res, more, after);
  }

  predicate Loses(r: UpgradeResult, ref: Ref) {
    r.ref == ref && r.end.Attempted? &&
    (r.end.outcome.Down? || r.end.outcome.Died? || r.end.outcome.NotSnapshotted?)
  }

  /** Some attempt went down, died, or failed in the snapshot. */
  ghost predicate LossAmong(results: seq<UpgradeResult>, ref: Ref) {
    exists r :: r in results && Loses(r, ref)
  }

  lemma OneUpgrade(rs: seq<RunnerRecord>, op: Op)
    requires op.Upgrade?
    ensures ApplyAll(rs, [op]) == Apply(rs, op)
    ensures VersionOf(ApplyAll(rs, [op]), op.key) == op.to
  {
    UpgradeVersions(rs, op, op.key);
    assert ApplyAll(Apply(rs, op), [op][1..]) == Apply(rs, op);
  }

  // ---------------------------------------------------------------- one runner

  class Pass {
    const opts: UpgradeOpts
    const cache: set<string>                  // cached tarballs, by path
    const releases: string -> seq<Entry>      // the verified tarball of each version
    const hosts: map<Ref, RunnerHost>         // the runners installed here
    const st: StateManifest
    var dlCache: map<string, string>          // the download of each org, once known

    constructor (opts: UpgradeOpts, cache: set<string>, releases: string -> seq<Entry>, hosts: map<Ref, RunnerHost>,
                 st: StateManifest)
      ensures this.opts == opts && this.cache == cache && this.releases == releases
      ensures this.hosts == hosts && this.st == st && dlCache == map[]
    {
      this.opts, this.cache, this.releases, this.hosts, this.st, dlCache := opts, cache, releases, hosts, st, map[];
    }

    ghost predicate Valid()
      reads this, st
    {
      st.Valid() && (forall v :: Genuine(releases(v))) &&
      forall a, b :: a in hosts && b in hosts && hosts[a] == hosts[b] ==> a == b
    }

    /** The memoized download of an org. */
    method Resolve(org: string, fetched: Option<string>) returns (url: Option<string>)
      modifies this`dlCache
      ensures url == if org in old(dlCache) then Some(old(dlCache)[org]) else fetched
      ensures dlCache == if url.Some? then old(dlCache)[org := url.value] else old(dlCache)
    {
      if org in dlCache { return Some(dlCache[org]); }
      url := fetched;
      if url.Some? { dlCache := dlCache[org := url.value]; }
    }

    method ResolveTarget(rec: RunnerRecord, org: string, fetched: Option<string>)
      returns (to: string, stop: Option<End>)
      modifies this`dlCache
      ensures var url := if org in old(dlCache) then Some(old(dlCache)[org]) else fetched;
        && Target(opts, rec.previousVersion, cache, url) == (if stop.None? then Some(to) else None)
        && to == if opts.rollback then rec.previousVersion else if url.Some? then Versions.Version(url.value) else ""
      ensures stop.Some? ==> stop.value == if !opts.rollback then Unresolved
                                           else if rec.previousVersion == "" then Skipped(NoPrevious) else NotCached
      ensures forall o :: o in old(dlCache) ==> o in dlCache && dlCache[o] == old(dlCache)[o]
      ensures stop.None? && !opts.rollback ==> org in dlCache && to == Versions.Version(dlCache[org])
    {
      to, stop := "", None;
      if opts.rollback {
        if rec.previousVersion == "" { return "", Some(Skipped(NoPrevious)); }
        to := rec.previousVersion;
        if !Cached(to, cache) { stop := Some(NotCached); }
        return;
      }
      var url := Resolve(org, fetched);
      match url
      case None => stop := Some(Unresolved);
      case Some(u) => to := Versions.VersionFromURL(u);
    }

    /** upgradeOnePersistent up to the swap: whether to go ahead, and to which version. */
    method Plan(row: Row, f: Found, rec: RunnerRecord) returns (to: string, stop: Option<End>)
      modifies this`dlCache
      ensures stop.Some? ==> !stop.value.Attempted?
      ensures var url := if row.ref.0 in old(dlCache) then Some(old(dlCache)[row.ref.0]) else f.fetched;
        && stop == Ruling(opts, cache, rec, row, f, url)
        && to == Shown(opts, rec, row, f, url) && (stop.None? ==> Aim(opts, cache, rec, url) == Some(to))
      ensures forall o :: o in old(dlCache) ==> o in dlCache && dlCache[o] == old(dlCache)[o]
      ensures stop.None? && !opts.rollback ==> row.ref.0 in dlCache && to == Versions.Version(dlCache[row.ref.0])
    {
      if row.busy { return "", Some(Skipped(Busy)); }
      var known := if rec.githubId == 0 && f.agentId.Some? then f.agentId.value else rec.githubId;
      var skip := IdMismatchSkip(known, row.id);
      if skip.Some? { return "", Some(Skipped(skip.value)); }
      to, stop := ResolveTarget(rec, row.ref.0, f.fetched);
      if stop.Some? { return; }
      skip := VersionGateSkip(rec.agentVersion, to, opts.force, opts.rollback);
      if skip.Some? { return to, Some(Skipped(skip.value)); }
      if opts.dryRun { return to, Some(Skipped(DryRun)); }
      if f.liveBusy == Some(true) { return to, Some(Skipped(BecameBusy)); }
    }

    /** The swap on one host, seen from the manifest. */
    method Swap(host: RunnerHost, f: Found, from: string, to: string, ghost ref: Ref) returns (out: Outcome)
      requires Genuine(releases(to))
      modifies host`tree, host`running, host`clock
      // payload and record stay in step unless given up; its end, and whether the unit is up
      // then, are what the calls ahead say
      ensures Outlook(releases, from, to, old(ShotOf(host)), out, ShotOf(host))
      // with no fault it succeeds; a runner said to be restored has its payload, unless the calls
      // ahead half-way snapshot it
      ensures Fared(releases, f, old(ShotOf(host)), ShotOf(host), UpgradeResult(ref, from, to, Attempted(out)))
      ensures out == Refused <==> !f.unitInstalled || ".runner" !in old(host.tree) || !f.verified
    {
      ghost var before := ShotOf(host);
      ghost var base, snap, k;
      out, base, snap, k := host.UpgradeRunnerAgent(f.unitInstalled, f.verified, releases(to), f.user);
      AttemptMeans(releases, from, to, f, before, ShotOf(host), base, out, k, ref);
    }

    /** The swap, and the record of it when it succeeds. */
    method Attempt(ref: Ref, f: Found, rec: RunnerRecord, to: string, ghost rs: seq<RunnerRecord>, ghost before: Shot)
      returns (out: Outcome, ghost ops: seq<Op>, ghost after: Shot)
      requires Valid() && ref in hosts && InScope(opts, ref) && !opts.dryRun
      requires rs == st.Contents() && before == ShotOf(hosts[ref]) && rec == Recorded(rs, ref)
      requires VersionGateSkip(rec.agentVersion, to, opts.force, opts.rollback).None?
      modifies st, st.runners, hosts[ref]
      ensures Valid() && (st.runners == old(st.runners) || fresh(st.runners))
      ensures after == ShotOf(hosts[ref]) && st.Contents() == ApplyAll(rs, ops)
      ensures var res := UpgradeResult(ref, rec.agentVersion, to, Attempted(out));
        TurnTaken(opts, releases, rs, before, f, res, ops, after)
    {
      out := Swap(hosts[ref], f, rec.agentVersion, to, ref);
      after, ops := ShotOf(hosts[ref]), [];
      if out == Upgraded {
        ops := Note(ref, to, f, rec);
      }
      TurnTried(opts, releases, rs, before, f, UpgradeResult(ref, rec.agentVersion, to, Attempted(out)), ops, after);
    }

    /** The turn from the ruling on. */
    method Proceed(ref: Ref, f: Found, rec: RunnerRecord, to: string, stop: Option<End>, ghost rs: seq<RunnerRecord>,
                   ghost before: Shot)
      returns (res: UpgradeResult, ghost ops: seq<Op>, ghost after: Shot)
      requires Valid() && ref in hosts && InScope(opts, ref)
      requires rs == st.Contents() && before == ShotOf(hosts[ref]) && rec == Recorded(rs, ref)
      requires stop.Some? ==> !stop.value.Attempted?
      requires stop.None? ==>
                 !opts.dryRun && VersionGateSkip(rec.agentVersion, to, opts.force, opts.rollback).None?
      modifies st, st.runners, hosts[ref]
      ensures Valid() && (st.runners == old(st.runners) || fresh(st.runners))
      ensures res.ref == ref && res.from == rec.agentVersion && res.to == to
      ensures stop == if res.end.Attempted? then None else Some(res.end)
      ensures after == ShotOf(hosts[ref]) && st.Contents() == ApplyAll(rs, ops)
      ensures TurnTaken(opts, releases, rs, before, f, res, ops, after)
    {
      match stop
      case Some(end) =>
        res, ops, after := UpgradeResult(ref, rec.agentVersion, to, end), [], before;
        TurnIdle(opts, releases, rs, before, f, res);
      case None =>
        var out;
        out, ops, after := Attempt(ref, f, rec, to, rs, before);
        res := UpgradeResult(ref, rec.agentVersion, to, Attempted(out));
    }

    /** upgradeOnePersistent. */
    method UpgradeOne(row: Row, f: Found) returns (res: UpgradeResult, ghost ops: seq<Op>, ghost after: Shot)
      requires Valid() && row.ref in hosts && InScope(opts, row.ref)
      modifies this`dlCache, st, st.runners, hosts[row.ref]
      ensures Valid() && (st.runners == old(st.runners) || fresh(st.runners))
      // whether it is tried, and towards what, and why not
      ensures var url := if row.ref.0 in old(dlCache) then Some(old(dlCache)[row.ref.0]) else f.fetched;
        Decides(opts, cache, Recorded(old(st.Contents()), row.ref), Decision(row, f, url, 0), res)
      ensures forall o :: o in old(dlCache) ==> o in dlCache && dlCache[o] == old(dlCache)[o]
      ensures res.end.Attempted? && !opts.rollback ==>
                row.ref.0 in dlCache && res.to == Versions.Version(dlCache[row.ref.0])
      // what happens to the runner and to the manifest
      ensures after == ShotOf(hosts[row.ref]) && st.Contents() == ApplyAll(old(st.Contents()), ops)
      ensures TurnTaken(opts, releases, old(st.Contents()), old(ShotOf(hosts[row.ref])), f, res, ops, after)
    {
      var found := st.Get(KeyOf(row.ref));
      var rec := if found.Some? then found.value else Blank(KeyOf(row.ref));
      ghost var rs, before := st.Contents(), ShotOf(hosts[row.ref]);
      var to, stop := Plan(row, f, rec);
      res, ops, after := Proceed(row.ref, f, rec, to, stop, rs, before);
    }

    /** Put the upgraded record into the manifest. */
    method Note(ref: Ref, to: string, f: Found, rec: RunnerRecord) returns (ghost ops: seq<Op>)
      requires st.Valid() && rec == Recorded(st.Contents(), ref)
      modifies st, st.runners
      ensures st.Valid() && (st.runners == old(st.runners) || fresh(st.runners))
      ensures |ops| == 1 && ops[0].Upgrade? && ops[0].key == KeyOf(ref) && ops[0].to == to
      ensures st.Contents() == ApplyAll(old(st.Contents()), ops)
      ensures RecordMoved(rec, Recorded(st.Contents(), ref), to, f)
      ensures forall k :: k != KeyOf(ref) ==> Find(st.Contents(), k) == Find(old(st.Contents()), k)
    {
      var key, id := KeyOf(ref), KnownId(rec, f.agentId);
      var r := Bumped(Some(rec), key, to, id, f.now);
      ghost var rs := st.Contents();
      ops := [Upgrade(key, to, id, f.now)];
      OneUpgrade(rs, ops[0]);
      forall k ensures Find(WithPut(rs, r), k) == if k == key then Some(r) else Find(rs, k) {
        FindPut(rs, r, k);
      }
      st.Put(r);
    }

    ghost function Shots(): map<Ref, Shot>
      reads hosts.Values
    {
      map ref | ref in hosts :: ShotOf(hosts[ref])
    }

    /** A turn touches one runner only. */
    method TurnOn(row: Row, f: Found)
      returns (res: UpgradeResult, ghost more: seq<Op>, ghost after: Shot, ghost url: Option<string>)
      requires Valid() && row.ref in hosts && InScope(opts, row.ref)
      modifies this`dlCache, st, st.runners, hosts[row.ref]
      ensures Valid() && (st.runners == old(st.runners) || fresh(st.runners))
      ensures Decides(opts, cache, Recorded(old(st.Contents()), row.ref), Decision(row, f, url, 0), res)
      ensures res.ref == row.ref && Shots() == old(Shots())[row.ref := after]
      ensures TurnOf(opts, releases, old(st.Contents()), old(Shots())[row.ref], res, more, after)
      ensures st.Contents() == ApplyAll(old(st.Contents()), more)
      ensures forall o :: o in old(dlCache) ==> o in dlCache && dlCache[o] == old(dlCache)[o]
      ensures res.end.Attempted? && !opts.rollback ==>
                row.ref.0 in dlCache && res.to == Versions.Version(dlCache[row.ref.0])
    {
      url := if row.ref.0 in dlCache then Some(dlCache[row.ref.0]) else f.fetched;
      res, more, after := UpgradeOne(row, f);
      OneShot(row.ref);
    }

    twostate lemma OneShot(ref: Ref)
      requires ref in hosts && Valid()
      requires forall r :: r in hosts && hosts[r] != hosts[ref] ==> ShotOf(hosts[r]) == old(ShotOf(hosts[r]))
      ensures Shots() == old(Shots())[ref := ShotOf(hosts[ref])]
    {
      forall r | r in hosts && r != ref ensures Shots()[r] == old(Shots())[r] {
        assert hosts[r] != hosts[ref];
      }
    }

    /** One turn of the pass. */
    method Turn(row: Row, f: Found, before: seq<UpgradeResult>, ghost h: History)
      returns (results: seq<UpgradeResult>, died: bool, ghost next: History)
      requires Valid() && row.ref in hosts && InScope(opts, row.ref) && Memo(opts, dlCache, before) && NoneDied(before)
      requires Kept(opts, releases, before, h, st.Contents(), Shots()) && AllDecided(opts, cache, before, h)
      requires Traced(releases, before, h.was, h.afters, Shots())
      modifies this`dlCache, st, st.runners, hosts[row.ref]
      ensures Valid() && (st.runners == old(st.runners) || fresh(st.runners)) && Memo(opts, dlCache, results)
      ensures next.rs == h.rs && next.was == h.was && (died || NoneDied(results)) && died == EndsDead(results)
      ensures Kept(opts, releases, results, next, st.Contents(), Shots()) && AllDecided(opts, cache, results, next)
      ensures Traced(releases, results, next.was, next.afters, Shots())
      ensures Rows(next.turns) == Rows(h.turns) + [row]
    {
      ghost var now, rs, dl := Shots(), st.Contents(), dlCache;
      var res; ghost var more, after, url;
      res, more, after, url := TurnOn(row, f);
      results, died := before + [res], res.end.Attempted? && res.end.outcome.Died?;
      ghost var d := Decision(row, f, url, |h.ops|);
      next := Turned(h, d, res, more, after);
      MemoNext(opts, dl, dlCache, before, res);
      TracedNext(releases, before, h.was, h.afters, now, res, after);
      TurnKeepsAll(opts, releases, cache, before, h, rs, now, d, res, more, after);
    }

    /** UpgradeLocalRunners: its checks, then the pass. `died`: the process did,
        inside the attempt the last result reports. */
    method UpgradeLocalRunners(orgs: set<string>, stateReadable: bool, rows: seq<Row>, found: nat -> Found)
      returns (refused: bool, died: bool, results: seq<UpgradeResult>, ghost h: History)
      requires Valid() && dlCache == map[]
      modifies this`dlCache, st, st.runners, hosts.Values
      ensures Valid() && h.rs == old(st.Contents()) && h.was == old(Shots())
      ensures refused <==> (opts.filter != "" && opts.filter !in orgs) || !stateReadable
      ensures (refused ==> results == []) && died == EndsDead(results)
      ensures Kept(opts, releases, results, h, st.Contents(), Shots()) && OneTargetPerOrg(opts, results)
      // every runner of this host in scope has its turn, in order, and is judged on its own
      ensures AllDecided(opts, cache, results, h) && Traced(releases, results, h.was, h.afters, Shots())
      ensures Rows(h.turns) <= Text.Collect(rows, InTurn(opts, hosts.Keys))
      ensures !refused && !died ==> Rows(h.turns) == Text.Collect(rows, InTurn(opts, hosts.Keys))
      ensures forall row :: row in Text.Collect(rows, InTurn(opts, hosts.Keys)) <==>
                && row in rows && row.ref in hosts && !("srm-eph-" <= row.ref.1)
                && (opts.filter == "" || row.ref.0 == opts.filter) && (opts.only != {} ==> row.ref in opts.only)
    {
      RowsInTurn(opts, hosts.Keys, rows);
      h := History(st.Contents(), Shots(), [], {}, [], []);
      results, refused, died := [], false, false;
      if (opts.filter != "" && opts.filter !in orgs) || !stateReadable {
        refused := true;
      } else {
        died, results, h := UpgradePersistent(rows, found, h);
      }
    }

    /** upgradePersistent: turn by turn. */
    method UpgradePersistent(rows: seq<Row>, found: nat -> Found, ghost start: History)
      returns (died: bool, results: seq<UpgradeResult>, ghost h: History)
      requires Valid() && dlCache == map[]
      requires start == History(st.Contents(), Shots(), [], {}, [], [])
      modifies this`dlCache, st, st.runners, hosts.Values
      ensures Valid() && h.rs == start.rs && h.was == start.was && died == EndsDead(results)
      ensures Kept(opts, releases, results, h, st.Contents(), Shots()) && OneTargetPerOrg(opts, results)
      ensures AllDecided(opts, cache, results, h) && Traced(releases, results, h.was, h.afters, Shots())
      ensures Rows(h.turns) <= Text.Collect(rows, InTurn(opts, hosts.Keys))
      ensures !died ==> Rows(h.turns) == Text.Collect(rows, InTurn(opts, hosts.Keys))
    {
      h, results, died := start, [], false;
      for i := 0 to |rows|
        invariant Valid() && (st.runners == old(st.runners) || fresh(st.runners))
        invariant Memo(opts, dlCache, results) && NoneDied(results)
        invariant h.rs == start.rs && h.was == start.was && !died && !EndsDead(results)
        invariant Kept(opts, releases, results, h, st.Contents(), Shots()) && AllDecided(opts, cache, results, h)
        invariant Traced(releases, results, h.was, h.afters, Shots())
        invariant Rows(h.turns) == Text.Collect(rows[..i], InTurn(opts, hosts.Keys))
      {
        Text.CollectNext(rows, i, InTurn(opts, hosts.Keys));
        Upto(rows, i + 1, InTurn(opts, hosts.Keys));
        if rows[i].ref in hosts && InScope(opts, rows[i].ref) {
          results, died, h := Turn(rows[i], found(i), results, h);
          if died {
            MemoOneTarget(opts, dlCache, results);
            return;
          }
        }
      }
      assert rows[..|rows|] == rows;
      MemoOneTarget(opts, dlCache, results);
    }
  }
}
