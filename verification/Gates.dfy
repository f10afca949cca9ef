/** Which runners an upgrade pass may touch, and to which version. */
module Gates {
  import opened Options
  import opened Versions
  import opened Manifest

  datatype UpgradeOpts = UpgradeOpts(filter: string, only: set<(string, string)>, dryRun: bool, force: bool,
                                     rollback: bool)

  datatype Why = Busy | IdMismatch | NoPrevious | AtTarget | Downgrade | DryRun | BecameBusy

  /** idMismatchSkip: both ids known, and different. */
  function IdMismatchSkip(recordedId: int, liveId: int): Option<Why> {
    if recordedId != 0 && liveId != 0 && recordedId != liveId then Some(IdMismatch) else None
  }

  /** versionGateSkip. */
  function VersionGateSkip(from: string, to: string, force: bool, rollback: bool): Option<Why> {
    if !force && from != "" && from == to then Some(AtTarget)
    else if !force && !rollback && from != "" && to != "" && Compare(to, from) < 0 then Some(Downgrade)
    else None
  }

  /** The gates on versions made of numbers: without force, the version that is there already
      and, except for a rollback, every smaller one are refused. */
  lemma GateOnNumbers(x: seq<int>, y: seq<int>, force: bool, rollback: bool)
    requires x != [] && y != [] && Ints(x) && Ints(y)
    ensures VersionGateSkip(Dotted(x), Dotted(y), force, rollback) ==
            if !force && x == y then Some(AtTarget)
            else if !force && !rollback && Smaller(y, x) then Some(Downgrade)
            else None
  {
    CompareNumbers(y, x);
    DottedApart(x, y);
    DottedApart(y, x);
  }

  /** The gates let a runner move, without force and without rollback. */
  predicate Moves(from: string, to: string) {
    VersionGateSkip(from, to, false, false).None?
  }

  /** Two passes can take a runner from a version to an older one exactly when the first
      pass's target was not recognised, so that the version on record became unknown. */
  lemma DropsThroughIff(from: string, mid: string, to: string)
    requires from != "" && to != "" && Compare(to, from) < 0
    ensures Moves(from, mid) && Moves(mid, to) <==> mid == ""
  {
    if mid != "" && Moves(from, mid) && Moves(mid, to) {
      CompareFlips(mid, from);
      CompareFlips(to, mid);
      CompareFlips(to, from);
      CompareTransitive(from, mid, to);
    }
  }

  /** Each of these upgrades was let through by the version gates at its turn. */
  ghost predicate Climbs(rs: seq<RunnerRecord>, ops: seq<Op>)
    decreases |ops|
  {
    ops == [] ||
    (ops[0].Upgrade? && Moves(VersionOf(rs, ops[0].key), ops[0].to) && Climbs(Apply(rs, ops[0]), ops[1..]))
  }

  /** The version on record, "" when there is none. */
  function VersionOf(rs: seq<RunnerRecord>, key: Key): string {
    var r := Find(rs, key);
    if r.Some? then r.value.agentVersion else ""
  }

  lemma UpgradeVersions(rs: seq<RunnerRecord>, op: Op, key: Key)
    requires op.Upgrade?
    ensures VersionOf(Apply(rs, op), key) == if key == op.key then op.to else VersionOf(rs, key)
  {
    FindPut(rs, Bumped(Find(rs, op.key), op.key, op.to, op.id, op.now), key);
  }

  /** Whatever the passes and their targets, as long as every target is recognised, no
      recorded version ever decreases, nor is it ever lost. */
  lemma {:induction false} VersionsNeverDrop(rs: seq<RunnerRecord>, ops: seq<Op>, key: Key)
    requires Climbs(rs, ops) && forall op :: op in ops ==> op.Upgrade? && op.to != ""
    requires VersionOf(rs, key) != ""
    ensures VersionOf(ApplyAll(rs, ops), key) != ""
    ensures Compare(VersionOf(ApplyAll(rs, ops), key), VersionOf(rs, key)) >= 0
    decreases |ops|
  {
    var v := VersionOf(rs, key);
    CompareFlips(v, v);
    if ops == [] {
    } else {
      var op, next := ops[0], Apply(rs, ops[0]);
      assert op in ops && forall o :: o in ops[1..] ==> o in ops;
      UpgradeVersions(rs, op, key);
      VersionsNeverDrop(next, ops[1..], key);
      var w, end := VersionOf(next, key), VersionOf(ApplyAll(rs, ops), key);
      CompareFlips(w, v);
      CompareFlips(end, w);
      CompareFlips(end, v);
      CompareTransitive(v, w, end);
    }
  }

  function AfterPasses(rs: seq<RunnerRecord>, passes: seq<seq<Op>>): seq<RunnerRecord>
    decreases |passes|
  {
    if passes == [] then rs else AfterPasses(ApplyAll(rs, passes[0]), passes[1..])
  }

  /** Passes without force or rollback, all their targets recognised. */
  ghost predicate PassesClimb(rs: seq<RunnerRecord>, passes: seq<seq<Op>>)
    decreases |passes|
  {
    passes == [] ||
    (Climbs(rs, passes[0]) && (forall op :: op in passes[0] ==> op.Upgrade? && op.to != "") &&
     PassesClimb(ApplyAll(rs, passes[0]), passes[1..]))
  }

  /** So over any sequence of such passes a runner's recorded version only climbs. */
  lemma {:induction false} PassesNeverDrop(rs: seq<RunnerRecord>, passes: seq<seq<Op>>, key: Key)
    requires PassesClimb(rs, passes) && VersionOf(rs, key) != ""
    ensures VersionOf(AfterPasses(rs, passes), key) != ""
    ensures Compare(VersionOf(AfterPasses(rs, passes), key), VersionOf(rs, key)) >= 0
    decreases |passes|
  {
    var v := VersionOf(rs, key);
    CompareFlips(v, v);
    if passes == [] {
    } else {
      var next := ApplyAll(rs, passes[0]);
      VersionsNeverDrop(rs, passes[0], key);
      PassesNeverDrop(next, passes[1..], key);
      var w, end := VersionOf(next, key), VersionOf(AfterPasses(rs, passes), key);
      CompareFlips(w, v);
      CompareFlips(end, w);
      CompareFlips(end, v);
      CompareTransitive(v, w, end);
    }
  }

  lemma {:induction false} ApplyAllAppend(rs: seq<RunnerRecord>, a: seq<Op>, b: seq<Op>)
    ensures ApplyAll(rs, a + b) == ApplyAll(ApplyAll(rs, a), b)
    decreases |a|
  {
    if a == [] {
      assert a + b == b;
    } else {
      assert (a + b)[1..] == a[1..] + b;
      ApplyAllAppend(Apply(rs, a[0]), a[1..], b);
    }
  }

  /** Passes one after the other climb when each does. */
  lemma {:induction false} ClimbsAppend(rs: seq<RunnerRecord>, a: seq<Op>, b: seq<Op>)
    ensures Climbs(rs, a + b) <==> Climbs(rs, a) && Climbs(ApplyAll(rs, a), b)
    decreases |a|
  {
    if a == [] {
      assert a + b == b;
    } else {
      assert (a + b)[1..] == a[1..] + b;
      ClimbsAppend(Apply(rs, a[0]), a[1..], b);
    }
  }

  // ---------------------------------------------------------------- targets

  /** CachedAgentTarball, for the URL a rollback builds from a version. */
  predicate Cached(version: string, cache: set<string>) {
    CachePath(DownloadURL(version)) in cache
  }

  /** resolveTarget: the version a rollback or a forward pass aims at. `cache` holds the
      paths of the cached tarballs, `url` the download found for a forward pass. */
  function Target(opts: UpgradeOpts, previous: string, cache: set<string>, url: Option<string>): Option<string> {
    if opts.rollback then
      if previous != "" && Cached(previous, cache) then Some(previous) else None
    else if url.Some? then Some(Version(url.value))
    else None
  }

  /** The recorded id, or the one the agent keeps itself. */
  function KnownId(rec: RunnerRecord, agentId: Option<int>): int {
    if rec.githubId == 0 && agentId.Some? then agentId.value else rec.githubId
  }

  /** What a rollback pass does to a record, when nothing else is in its way. */
  function RollbackTo(rec: RunnerRecord, cache: set<string>): Option<string> {
    var t := Target(UpgradeOpts("", {}, false, false, true), rec.previousVersion, cache, None);
    if t.Some? && VersionGateSkip(rec.agentVersion, t.value, false, true).None? then t else None
  }

  /** An upgrade can be rolled back exactly when the version before it was known, was another
      one, and its tarball is where the rollback looks for it. */
  lemma RollbackPossibleIff(rec: RunnerRecord, to: string, id: int, now: string, cache: set<string>)
    ensures var after := Bumped(Some(rec), rec.key, to, id, now); var from := rec.agentVersion;
      RollbackTo(after, cache) == if from != "" && from != to && Cached(from, cache) then Some(from) else None
  {}

  /** n rollbacks in a row, as far as they go. */
  function RollBack(rec: RunnerRecord, back: RunnerRecord -> Option<string>, n: nat): RunnerRecord {
    if n == 0 then rec
    else
      var before := RollBack(rec, back, n - 1);
      var t := back(before);
      if t.Some? then Bumped(Some(before), rec.key, t.value, 0, "") else before
  }

  function RollbackWith(cache: set<string>): RunnerRecord -> Option<string> {
    rec => RollbackTo(rec, cache)
  }

  /** A runner that is on one of two versions and came from the other. */
  predicate Between(r: RunnerRecord, a: string, b: string) {
    (r.previousVersion == a && r.agentVersion == b) || (r.previousVersion == b && r.agentVersion == a)
  }

  lemma {:induction false} Alternates(rec: RunnerRecord, back: RunnerRecord -> Option<string>, n: nat)
    requires var a, b := rec.previousVersion, rec.agentVersion;
      forall r: RunnerRecord :: Between(r, a, b) ==> back(r) == Some(r.previousVersion)
    ensures var a, b, r := rec.previousVersion, rec.agentVersion, RollBack(rec, back, n);
      if n % 2 == 0 then r.agentVersion == b && r.previousVersion == a
      else r.agentVersion == a && r.previousVersion == b
  {
    if n == 0 {
    } else {
      Alternates(rec, back, n - 1);
    }
  }

  lemma RollbackGoesBack(rec: RunnerRecord, cache: set<string>)
    requires rec.previousVersion != "" && rec.previousVersion != rec.agentVersion && Cached(rec.previousVersion, cache)
    ensures RollbackWith(cache)(rec) == Some(rec.previousVersion)
  {}

  /** After an upgrade from A to B, each downloaded from a URL without query or fragment,
      rollbacks restore A, then B, then A, and so on. */
  lemma RollbacksAlternate(rec: RunnerRecord, urlA: string, urlB: string, id: int, now: string, cache: set<string>,
                           n: nat)
    requires IsAsset(BeforeMark(Base(urlA))) && !Marked(Base(urlA)) && CachePath(urlA) in cache
    requires IsAsset(BeforeMark(Base(urlB))) && !Marked(Base(urlB)) && CachePath(urlB) in cache
    requires var a, b := Version(urlA), Version(urlB); rec.agentVersion == a && a != "" && b != "" && a != b
    ensures RollBack(Bumped(Some(rec), rec.key, Version(urlB), id, now), RollbackWith(cache), n).agentVersion ==
              if n % 2 == 0 then Version(urlB) else Version(urlA)
  {
    RollbackFindsDownloadIff(urlA);
    RollbackFindsDownloadIff(urlB);
    var a, b, back := Version(urlA), Version(urlB), RollbackWith(cache);
    forall r: RunnerRecord | Between(r, a, b)
      ensures back(r) == Some(r.previousVersion)
    {
      RollbackGoesBack(r, cache);
    }
    Alternates(Bumped(Some(rec), rec.key, b, id, now), back, n);
  }
}
