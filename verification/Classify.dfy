/** Drift classes: the ordered classifiers, and what runs of repairs by binaries of
    different template generations do to one unit. */
module Classify {
  import opened Options
  import opened Text
  import opened Templates

  /** What the host says about a persistent runner. */
  datatype Inspection = Inspection(active: bool, hasTree: bool, hasFlatTree: bool, dropInOK: bool, dropInNewer: bool)

  datatype Class =
    | Healthy | OrphanUnit | StaleDropIn | DropInNewer | Stuck | LegacyFlat | OrphanGitHub | Unknown
    | EphemeralSlot | EphemeralStuck | EphemeralNewer

  function ClassifyPersistent(insp: Inspection, onGitHub: bool, orgListedOK: bool, online: bool): Class {
    if !onGitHub && !orgListedOK then Unknown
    else if !onGitHub then OrphanUnit
    else if insp.hasFlatTree && !insp.hasTree then LegacyFlat
    else if insp.dropInNewer then DropInNewer
    else if !insp.dropInOK then StaleDropIn
    else if !insp.active then Stuck
    else if !online then Stuck
    else Healthy
  }

  /** Each class, exactly: `untold` says that GitHub was asked for the org and did not answer. */
  ghost predicate PersistentClass(c: Class, insp: Inspection, onGitHub: bool, untold: bool, online: bool) {
    var legacy := insp.hasFlatTree && !insp.hasTree;
    var settled := onGitHub && !legacy && !insp.dropInNewer && insp.dropInOK;
    && (c == Unknown <==> !onGitHub && untold) && (c == OrphanUnit <==> !onGitHub && !untold)
    && (c == LegacyFlat <==> onGitHub && legacy)
    && (c == DropInNewer <==> onGitHub && !legacy && insp.dropInNewer)
    && (c == StaleDropIn <==> onGitHub && !legacy && !insp.dropInNewer && !insp.dropInOK)
    && (c == Stuck <==> settled && !(insp.active && online)) && (c == Healthy <==> settled && insp.active && online)
  }

  datatype LaneInspection = LaneInspection(active: bool, unitOK: bool, unitNewer: bool, lastResult: string)
  datatype SlotState = SlotActive | SlotDown | SlotCrashLoop | SlotDrift

  function EphemeralSlotState(active: bool, unitOK: bool, lastResult: string): SlotState {
    if active && unitOK then SlotActive
    else if !unitOK then SlotDrift
    else if lastResult != "" && lastResult != "success" then SlotCrashLoop
    else SlotDown
  }

  function ClassifyEphemeral(insp: LaneInspection): Class {
    if insp.unitNewer then EphemeralNewer
    else if EphemeralSlotState(insp.active, insp.unitOK, insp.lastResult).SlotActive? then EphemeralSlot
    else EphemeralStuck
  }

  /** The label a lane's health goes by, exactly. */
  lemma SlotStateIff(active: bool, unitOK: bool, lastResult: string)
    ensures var state := EphemeralSlotState(active, unitOK, lastResult);
      && (state == SlotActive <==> active && unitOK) && (state == SlotDrift <==> !unitOK)
      && (state == SlotCrashLoop <==> unitOK && !active && lastResult !in {"", "success"})
      && (state == SlotDown <==> unitOK && !active && lastResult in {"", "success"})
  {}

  /** InspectEphemeral, of the unit file as it is read and the one this binary would write. */
  function InspectLane(unit: Option<string>, want: string, active: bool, lastResult: string): LaneInspection {
    var (ok, newer) :=
      if unit.Some?
      then Conformance(Version(unit.value, EPHEMERAL), CURRENT_EPHEMERAL,
                       Strip(unit.value, EPHEMERAL) == Strip(want, EPHEMERAL))
      else (false, false);
    LaneInspection(active, ok, newer, lastResult)
  }

  /** A lane's class from the text of its unit: newer if and only if the text can be read and
      states a later generation; healthy if and only if it states none later, reads the same
      apart from the marker, and runs. How often it restarted, and how the last cycle ended,
      does not matter. */
  lemma LaneClassIff(unit: Option<string>, want: string, active: bool, lastResult: string)
    ensures var c := ClassifyEphemeral(InspectLane(unit, want, active, lastResult));
      var newer := unit.Some? && Version(unit.value, EPHEMERAL) > 2;
      var same := unit.Some? && Strip(unit.value, EPHEMERAL) == Strip(want, EPHEMERAL);
      && (c == EphemeralNewer <==> newer) && (c == EphemeralSlot <==> !newer && same && active)
      && (c == EphemeralStuck <==> !newer && !(same && active))
  {}

  /** So this binary's own unit is healthy exactly while it runs, and a unit rendered with a
      later generation is newer, running or not: for every option and every body, as long as no
      value above the marker brings in a line break. */
  lemma OwnLaneIsHealthy(o: UnitOptions, org: string, slot: string, workDir: string, rest: string, active: bool,
                         lastResult: string)
    requires Free(EphemeralHead(o, org, slot, workDir), '\n')
    ensures var own := EphemeralUnit(o, org, slot, workDir, rest);
      ClassifyEphemeral(InspectLane(Some(own), own, active, lastResult)) ==
      if active then EphemeralSlot else EphemeralStuck
  {
    EphemeralUnitVersion(o, org, slot, workDir, rest);
    LaneClassIff(Some(EphemeralUnit(o, org, slot, workDir, rest)), EphemeralUnit(o, org, slot, workDir, rest), active,
                 lastResult);
  }

  lemma LaterLaneIsNewer(o: UnitOptions, org: string, slot: string, workDir: string, later: nat, rest: string,
                         want: string, active: bool, lastResult: string)
    requires Free(EphemeralHead(o, org, slot, workDir), '\n') && CURRENT_EPHEMERAL < later <= MAX_INT
    ensures var unit := Rendered(Join(EphemeralHead(o, org, slot, workDir), '\n'), EPHEMERAL, later, rest);
      ClassifyEphemeral(InspectLane(Some(unit), want, active, lastResult)) == EphemeralNewer
  {
    HeadStatesNothing(o, org, slot, workDir);
    PlainHeadReads(EphemeralHead(o, org, slot, workDir), later, rest);
  }

  /** Which classes a repair rewrites, and which it removes. */
  predicate Rewrites(c: Class) {
    c.StaleDropIn? || c.Stuck?
  }

  // ---------------------------------------------------------------- one unit, many binaries

  /** How a unit's text is read: the generation it states, and the body it is compared by. */
  datatype Reader = Reader(version: string -> nat, body: string -> string)

  /** srm's own reading of a drop-in. */
  const SRM := Reader(text => Version(text, DROPIN), text => Strip(text, DROPIN))

  /** A unit's drop-in on disk. */
  datatype Disk = Removed | NoDropIn | DropIn(text: string)

  function Generation(r: Reader, d: Disk): nat {
    if d.DropIn? then r.version(d.text) else 0
  }

  /** A binary: the generation it knows, and what it renders for the unit's options. */
  datatype Binary = Binary(generation: nat, render: string)

  /** What becomes of the write: not reached or refused, cut short after the truncation, done. */
  datatype Write = NotWritten | Torn(length: nat) | Whole

  /** Everything a pass finds besides the drop-in: whether it can read it, what becomes of its
      write, and whether a removal takes place. */
  datatype Scene = Scene(onGitHub: bool, listedOK: bool, online: bool, busy: bool, active: bool,
                         hasTree: bool, hasFlatTree: bool, readable: bool, write: Write, removed: bool)

  /** Inspect: a drop-in that is missing, or cannot be read, leaves both conformance bits unset. */
  function InspectDropIn(r: Reader, d: Disk, b: Binary, s: Scene): Inspection {
    var (ok, newer) :=
      if d.DropIn? && s.readable
      then Conformance(r.version(d.text), b.generation, r.body(d.text) == r.body(b.render))
      else (false, false);
    Inspection(s.active, s.hasTree, s.hasFlatTree, ok, newer)
  }

  function ClassOf(r: Reader, d: Disk, b: Binary, s: Scene): Class {
    ClassifyPersistent(InspectDropIn(r, d, b, s), s.onGitHub, s.listedOK, s.online)
  }

  /** What a write leaves in the file. */
  function Landed(b: Binary, w: Write): string {
    if w.Torn? && w.length < |b.render| then b.render[..w.length] else b.render
  }

  /** The pass gets as far as writing the drop-in. */
  predicate Writes(r: Reader, d: Disk, b: Binary, s: Scene) {
    !d.Removed? && !(s.onGitHub && s.busy) && Rewrites(ClassOf(r, d, b, s)) && !s.write.NotWritten?
  }

  /** One `reconcile --fix` pass over the unit. */
  function FixPass(r: Reader, d: Disk, b: Binary, s: Scene): Disk {
    if d.Removed? || (s.onGitHub && s.busy) then d
    else if ClassOf(r, d, b, s).OrphanUnit? then (if s.removed then Removed else d)
    else if Writes(r, d, b, s) then DropIn(Landed(b, s.write))
    else d
  }

  /** The pass found a stale drop-in and rewrote it. */
  predicate StaleRewrite(r: Reader, d: Disk, b: Binary, s: Scene) {
    Writes(r, d, b, s) && ClassOf(r, d, b, s).StaleDropIn? && s.write.Whole?
  }

  /** Every binary stamps its rendering with its generation. */
  ghost predicate Stamped(r: Reader, bs: seq<Binary>) {
    forall i :: 0 <= i < |bs| ==> r.version(bs[i].render) == bs[i].generation
  }

  /** And all render the same thing for the same generation. */
  ghost predicate Fleet(r: Reader, bs: seq<Binary>) {
    Stamped(r, bs) &&
    (forall i, j :: 0 <= i < |bs| && 0 <= j < |bs| && bs[i].generation == bs[j].generation ==>
       bs[i].render == bs[j].render)
  }

  /** The disk after the first n passes. */
  function After(r: Reader, d: Disk, bs: seq<Binary>, ss: seq<Scene>, n: nat): Disk
    requires |bs| == |ss| && n <= |bs|
  {
    if n == 0 then d else FixPass(r, After(r, d, bs, ss, n - 1), bs[n - 1], ss[n - 1])
  }

  // ---------------------------------------------------------------- one pass, exactly

  /** A unit whose drop-in a pass may write at all. */
  predicate Open(d: Disk, s: Scene) {
    !d.Removed? && s.onGitHub && !s.busy && (s.hasTree || !s.hasFlatTree) && !s.write.NotWritten?
  }

  /** The pass can tell that there is nothing to do. */
  predicate NothingDue(r: Reader, d: Disk, b: Binary, s: Scene) {
    d.DropIn? && s.readable &&
    (r.version(d.text) > b.generation || (r.body(d.text) == r.body(b.render) && s.active && s.online))
  }

  lemma WritesIff(r: Reader, d: Disk, b: Binary, s: Scene)
    ensures Writes(r, d, b, s) <==> Open(d, s) && !NothingDue(r, d, b, s)
  {}

  /** The two ways a pass takes a generation back: it cannot read a newer drop-in and writes
      over it, or its write is cut short and what lands states less. */
  predicate Lowers(r: Reader, d: Disk, b: Binary, s: Scene) {
    Open(d, s) && !NothingDue(r, d, b, s) && d.DropIn? &&
    if s.write.Torn? then r.version(Landed(b, s.write)) < r.version(d.text)
    else !s.readable && b.generation < r.version(d.text)
  }

  /** One pass lowers the generation on disk if and only if it does so in one of these ways.
      It removes only what GitHub, having answered, does not know, and writes nothing but its
      own rendering, or the start of it, to a unit that is registered and idle. */
  lemma PassLowersIff(r: Reader, d: Disk, b: Binary, s: Scene)
    requires r.version(b.render) == b.generation
    ensures var e := FixPass(r, d, b, s);
      && (!e.Removed? && Generation(r, e) < Generation(r, d) <==> Lowers(r, d, b, s))
      && (e.Removed? <==> d.Removed? || (!s.onGitHub && s.listedOK && s.removed))
      && (e != d && !e.Removed? ==> e == DropIn(Landed(b, s.write)) && s.onGitHub && !s.busy)
  {
    WritesIff(r, d, b, s);
  }

  /** A unit newer than the acting binary is written to if and only if it cannot be read. */
  lemma NewerTouchedIff(r: Reader, d: Disk, b: Binary, s: Scene)
    requires Generation(r, d) > b.generation
    ensures Writes(r, d, b, s) <==> Open(d, s) && !s.readable
  {
    WritesIff(r, d, b, s);
  }

  /** It happens: a healthy, newer unit that cannot be read is written back. */
  lemma UnreadableNewerIsLowered(r: Reader, text: string, b: Binary)
    requires r.version(b.render) == b.generation < r.version(text)
    ensures var s := Scene(true, true, true, false, true, true, false, false, Whole, false);
      FixPass(r, DropIn(text), b, s) == DropIn(b.render) && Lowers(r, DropIn(text), b, s)
  {}

  /** A binary that renders srm's drop-in, of its own generation. */
  function Srm(g: nat, rest: string): Binary {
    Binary(g, Rendered("[Service]", DROPIN, g, rest))
  }

  lemma CutLands(g: nat, rest: string, w: Write)
    requires g <= MAX_INT && w.Torn?
    ensures Version(Landed(Srm(g, rest), w), DROPIN) == StatedUpTo(g, w.length)
  {
    var text := Srm(g, rest).render;
    CutDropInReads(g, rest, if w.length < |text| then w.length else |text|);
    if w.length >= |text| {
      assert text[..|text|] == text;
      FullLength(g, rest, w.length);
    }
  }

  lemma FullLength(g: nat, rest: string, n: nat)
    requires n >= |Srm(g, rest).render|
    ensures StatedUpTo(g, n) == StatedUpTo(g, |Srm(g, rest).render|)
  {}

  /** For srm's own drop-in a torn write is judged by where it is cut: it lowers the generation
      if and only if the digits written so far make less than the drop-in on disk states. Over
      a drop-in of the same generation that is any cut before the last digit. */
  lemma TornLowersIff(d: Disk, g: nat, rest: string, s: Scene)
    requires 0 < g <= MAX_INT && s.write.Torn?
    ensures var b, due := Srm(g, rest), Open(d, s) && !NothingDue(SRM, d, Srm(g, rest), s);
      && (Lowers(SRM, d, b, s) <==> due && StatedUpTo(g, s.write.length) < Generation(SRM, d))
      && (Generation(SRM, d) == g ==> (Lowers(SRM, d, b, s) <==> due && s.write.length < DIGITS_AT + |Itoa(g)|))
  {
    CutLands(g, rest, s.write);
    StatedUpToIff(g, s.write.length);
  }

  /** This binary's own unit, being restarted, with its write cut short after n characters. */
  function TornAt(n: nat): Scene {
    Scene(true, true, true, false, false, true, false, true, Torn(n), false)
  }

  /** It goes from its generation to none if and only if the cut is before the digit. */
  lemma TornWriteLosesGenerationIff(fixed: string, o: UnitOptions, n: nat)
    ensures var text := RenderDropIn(fixed, o);
      var after := FixPass(SRM, DropIn(text), Binary(CURRENT_DROPIN, text), TornAt(n));
      && Generation(SRM, DropIn(text)) == CURRENT_DROPIN
      && Generation(SRM, after) == (if n <= DIGITS_AT then 0 else CURRENT_DROPIN)
  {
    RenderDropInVersion(fixed, o);
    CutLands(CURRENT_DROPIN, DropInRest(fixed, o), Torn(n));
    StuckIsWritten(SRM, Srm(CURRENT_DROPIN, DropInRest(fixed, o)), n);
  }

  lemma StuckIsWritten(r: Reader, b: Binary, n: nat)
    requires r.version(b.render) == b.generation
    ensures FixPass(r, DropIn(b.render), b, TornAt(n)) == DropIn(Landed(b, Torn(n)))
  {}

  // ---------------------------------------------------------------- runs of passes

  lemma {:induction false} RunClimbs(r: Reader, d: Disk, bs: seq<Binary>, ss: seq<Scene>, m: nat, n: nat)
    requires |bs| == |ss| && Stamped(r, bs) && m <= n <= |bs|
    requires forall i :: m <= i < n ==> !Lowers(r, After(r, d, bs, ss, i), bs[i], ss[i])
    ensures var x, y := After(r, d, bs, ss, m), After(r, d, bs, ss, n);
      && (x.Removed? ==> y.Removed?)
      && (!y.Removed? ==> Generation(r, x) <= Generation(r, y))
  {
    if m == n {
    } else {
      RunClimbs(r, d, bs, ss, m, n - 1);
      PassLowersIff(r, After(r, d, bs, ss, n - 1), bs[n - 1], ss[n - 1]);
    }
  }

  ghost predicate Climbs(r: Reader, d: Disk, bs: seq<Binary>, ss: seq<Scene>)
    requires |bs| == |ss|
  {
    forall m, n :: 0 <= m <= n <= |bs| && !After(r, d, bs, ss, n).Removed? ==>
      Generation(r, After(r, d, bs, ss, m)) <= Generation(r, After(r, d, bs, ss, n))
  }

  /** Over any run of passes, by binaries of any generations, the generation on disk only
      climbs if and only if no pass writes over a newer drop-in it cannot read or is cut
      short in a write that states less. */
  lemma RunClimbsIff(r: Reader, d: Disk, bs: seq<Binary>, ss: seq<Scene>)
    requires |bs| == |ss| && Stamped(r, bs)
    ensures Climbs(r, d, bs, ss) <==>
              forall i :: 0 <= i < |bs| ==> !Lowers(r, After(r, d, bs, ss, i), bs[i], ss[i])
  {
    if Climbs(r, d, bs, ss) {
      forall i | 0 <= i < |bs| ensures !Lowers(r, After(r, d, bs, ss, i), bs[i], ss[i]) {
        PassLowersIff(r, After(r, d, bs, ss, i), bs[i], ss[i]);
        assert After(r, d, bs, ss, i + 1) == FixPass(r, After(r, d, bs, ss, i), bs[i], ss[i]);
      }
    }
    if forall i :: 0 <= i < |bs| ==> !Lowers(r, After(r, d, bs, ss, i), bs[i], ss[i]) {
      forall m, n | 0 <= m <= n <= |bs| && !After(r, d, bs, ss, n).Removed?
        ensures Generation(r, After(r, d, bs, ss, m)) <= Generation(r, After(r, d, bs, ss, n))
      {
        RunClimbs(r, d, bs, ss, m, n);
      }
    }
  }

  /** Passes that read what is there and whose writes are not cut short. */
  ghost predicate Calm(ss: seq<Scene>, m: nat, n: nat)
    requires n <= |ss|
  {
    forall i :: m <= i < n ==> ss[i].readable && !ss[i].write.Torn?
  }

  lemma CalmClimbs(r: Reader, d: Disk, bs: seq<Binary>, ss: seq<Scene>, i: nat)
    requires |bs| == |ss| && Stamped(r, bs) && i < |bs| && Calm(ss, i, i + 1)
    ensures !Lowers(r, After(r, d, bs, ss, i), bs[i], ss[i])
  {}

  /** From a rewrite on, as long as the unit exists, the disk holds some binary's own
      rendering, of that generation or a later one. */
  lemma {:induction false} RenderedFromThen(r: Reader, d: Disk, bs: seq<Binary>, ss: seq<Scene>, m: nat, n: nat)
    returns (k: nat)
    requires |bs| == |ss| && Stamped(r, bs) && m < n <= |bs| && Calm(ss, m, n)
    requires After(r, d, bs, ss, m + 1) == DropIn(bs[m].render) && !After(r, d, bs, ss, n).Removed?
    ensures k < n && After(r, d, bs, ss, n) == DropIn(bs[k].render) && bs[m].generation <= bs[k].generation
  {
    if m + 1 == n {
      k := m;
    } else {
      var x, b, s := After(r, d, bs, ss, n - 1), bs[n - 1], ss[n - 1];
      PassLowersIff(r, x, b, s);
      CalmClimbs(r, d, bs, ss, n - 1);
      k := RenderedFromThen(r, d, bs, ss, m, n - 1);
      if FixPass(r, x, b, s) != x {
        k := n - 1;
      }
    }
  }

  /** Stale drop-ins are rewritten by strictly climbing generations: calm runs of any length
      do at most one such rewrite for each generation in the fleet. */
  lemma StaleRewritesClimb(r: Reader, d: Disk, bs: seq<Binary>, ss: seq<Scene>, i: nat, j: nat)
    requires |bs| == |ss| && Fleet(r, bs) && i < j < |bs| && Calm(ss, i, j + 1)
    requires StaleRewrite(r, After(r, d, bs, ss, i), bs[i], ss[i])
    requires StaleRewrite(r, After(r, d, bs, ss, j), bs[j], ss[j])
    ensures bs[i].generation < bs[j].generation
  {
    assert After(r, d, bs, ss, i + 1) == DropIn(bs[i].render);
    var k := RenderedFromThen(r, d, bs, ss, i, j);
  }

  /** A binary that cannot read its own rendering takes it for stale and writes it again. */
  lemma UnreadableIsRewritten(r: Reader, b: Binary, s: Scene)
    requires Open(DropIn(b.render), s) && s.write.Whole?
    ensures !s.readable ==> StaleRewrite(r, DropIn(b.render), b, s)
    ensures s.readable && r.version(b.render) == b.generation ==> !StaleRewrite(r, DropIn(b.render), b, s)
  {}

  /** The newest binary's rendering, or nothing once the unit is removed. */
  predicate Settled(x: Disk, newest: Binary) {
    x == DropIn(newest.render) || x.Removed?
  }

  lemma NewestStepAt(r: Reader, d: Disk, bs: seq<Binary>, ss: seq<Scene>, newest: Binary, i: nat)
    requires |bs| == |ss| && Fleet(r, bs + [newest]) && i < |bs| && ss[i].readable && !ss[i].write.Torn?
    requires bs[i].generation <= newest.generation && Settled(After(r, d, bs, ss, i), newest)
    ensures Settled(After(r, d, bs, ss, i + 1), newest)
    ensures !StaleRewrite(r, After(r, d, bs, ss, i), bs[i], ss[i])
  {
    FleetNewest(r, bs, newest, i);
    NewestStep(r, After(r, d, bs, ss, i), newest, bs[i], ss[i]);
  }

  lemma {:induction false} NewestSettled(r: Reader, d: Disk, bs: seq<Binary>, ss: seq<Scene>, newest: Binary, m: nat,
                                         n: nat)
    requires |bs| == |ss| && Fleet(r, bs + [newest]) && m <= n <= |bs| && Calm(ss, m, n)
    requires forall i :: 0 <= i < |bs| ==> bs[i].generation <= newest.generation
    requires Settled(After(r, d, bs, ss, m), newest)
    ensures Settled(After(r, d, bs, ss, n), newest)
  {
    if m == n {
    } else {
      NewestSettled(r, d, bs, ss, newest, m, n - 1);
      NewestStepAt(r, d, bs, ss, newest, n - 1);
    }
  }

  /** Once the newest binary's rendering is on disk, no calm run by the fleet changes it, or
      finds it stale; at most the unit is removed. */
  lemma NewestIsFinal(r: Reader, d: Disk, bs: seq<Binary>, ss: seq<Scene>, newest: Binary, m: nat, n: nat)
    requires |bs| == |ss| && Fleet(r, bs + [newest]) && m <= n <= |bs| && Calm(ss, m, n)
    requires forall i :: 0 <= i < |bs| ==> bs[i].generation <= newest.generation
    requires After(r, d, bs, ss, m) == DropIn(newest.render)
    ensures After(r, d, bs, ss, n) == DropIn(newest.render) || After(r, d, bs, ss, n).Removed?
    ensures forall i :: m <= i < n ==> !StaleRewrite(r, After(r, d, bs, ss, i), bs[i], ss[i])
  {
    NewestSettled(r, d, bs, ss, newest, m, n);
    forall i | m <= i < n ensures !StaleRewrite(r, After(r, d, bs, ss, i), bs[i], ss[i]) {
      NewestSettled(r, d, bs, ss, newest, m, i);
      NewestStepAt(r, d, bs, ss, newest, i);
    }
  }

  lemma FleetNewest(r: Reader, bs: seq<Binary>, newest: Binary, i: nat)
    requires Fleet(r, bs + [newest]) && i < |bs|
    ensures r.version(newest.render) == newest.generation
    ensures bs[i].generation == newest.generation ==> bs[i].render == newest.render
  {
    var all := bs + [newest];
    assert all[i] == bs[i] && all[|bs|] == newest;
  }

  lemma NewestStep(r: Reader, x: Disk, newest: Binary, b: Binary, s: Scene)
    requires Settled(x, newest)
    requires r.version(newest.render) == newest.generation && b.generation <= newest.generation
    requires b.generation == newest.generation ==> b.render == newest.render
    requires s.readable && !s.write.Torn?
    ensures Settled(FixPass(r, x, b, s), newest)
    ensures !StaleRewrite(r, x, b, s)
  {
    if !x.Removed? {
      NewestStays(r, newest, b, s);
    }
  }

  lemma NewestStays(r: Reader, newest: Binary, b: Binary, s: Scene)
    requires r.version(newest.render) == newest.generation && b.generation <= newest.generation
    requires b.generation == newest.generation ==> b.render == newest.render
    requires s.readable && !s.write.Torn?
    ensures FixPass(r, DropIn(newest.render), b, s) in {DropIn(newest.render), Removed}
    ensures !StaleRewrite(r, DropIn(newest.render), b, s)
  {}

  /** A readable newer unit is never taken for a stale one, although it fails the body
      comparison: the order of the classifier's tests is what keeps an old binary's hands off.
      One that cannot be read is. */
  lemma NewerIsSkippedIff(r: Reader, d: Disk, b: Binary, s: Scene)
    requires d.DropIn? && Generation(r, d) > b.generation && s.onGitHub && (s.hasTree || !s.hasFlatTree)
    ensures ClassOf(r, d, b, s).DropInNewer? <==> s.readable
    ensures ClassOf(r, d, b, s).StaleDropIn? <==> !s.readable
  {}

  lemma Rewritten(r: Reader, mine: Binary, other: Binary, s: Scene)
    requires other.generation == r.version(other.render) == mine.generation &&
             r.body(other.render) != r.body(mine.render)
    requires Open(DropIn(""), s) && s.write.Whole?
    ensures StaleRewrite(r, DropIn(other.render), mine, s)
    ensures FixPass(r, DropIn(other.render), mine, s) == DropIn(mine.render)
  {}

  /** Two binaries of one generation with different bodies, taking turns at a unit that is
      always open to them. */
  ghost predicate TakingTurns(r: Reader, a: Binary, b: Binary, bs: seq<Binary>, ss: seq<Scene>) {
    && a.generation == b.generation == r.version(a.render) == r.version(b.render)
    && r.body(a.render) != r.body(b.render)
    && |bs| == |ss|
    && (forall i :: 0 <= i < |bs| ==> bs[i] == Turn(i, b, a))
    && (forall i :: 0 <= i < |ss| ==> Open(DropIn(""), ss[i]) && ss[i].write.Whole?)
  }

  function Turn<T>(i: nat, even: T, odd: T): T {
    if i % 2 == 0 then even else odd
  }

  lemma {:induction false} TurnsOnDisk(r: Reader, a: Binary, b: Binary, bs: seq<Binary>, ss: seq<Scene>, n: nat)
    requires TakingTurns(r, a, b, bs, ss) && n <= |bs|
    ensures After(r, DropIn(a.render), bs, ss, n) == DropIn(Turn(n, a, b).render)
  {
    if n == 0 {
    } else {
      TurnsOnDisk(r, a, b, bs, ss, n - 1);
      Rewritten(r, Turn(n - 1, b, a), Turn(n - 1, a, b), ss[n - 1]);
    }
  }

  /** Without a generation bump they rewrite each other's drop-in for ever: in a run of any
      length, every single pass does. */
  lemma SameGenerationFights(r: Reader, a: Binary, b: Binary, bs: seq<Binary>, ss: seq<Scene>)
    requires TakingTurns(r, a, b, bs, ss)
    ensures forall i :: 0 <= i < |bs| ==> StaleRewrite(r, After(r, DropIn(a.render), bs, ss, i), bs[i], ss[i])
  {
    forall i | 0 <= i < |bs| ensures StaleRewrite(r, After(r, DropIn(a.render), bs, ss, i), bs[i], ss[i]) {
      TurnsOnDisk(r, a, b, bs, ss, i);
      Rewritten(r, Turn(i, b, a), Turn(i, a, b), ss[i]);
    }
  }

  /** A fleet that only lacks the marker is not touched for it: with srm's own reading, a
      marker line put into or left out of a matching body that can be read is no reason to
      restart a healthy runner. */
  lemma MarkerAloneIsConformant(at: nat, marker: string, b: Binary, s: Scene)
    requires at <= |Split(b.render, '\n')| && IsMarker(marker, DROPIN) && '\n' !in marker
    requires s.onGitHub && s.online && s.active && (s.hasTree || !s.hasFlatTree)
    ensures var lines := Split(b.render, '\n'); var text := Join(lines[..at] + [marker] + lines[at..], '\n');
      && (SRM.version(text) <= b.generation ==> (ClassOf(SRM, DropIn(text), b, s).Healthy? <==> s.readable))
      && (ClassOf(SRM, DropIn(Strip(b.render, DROPIN)), b, s).Healthy? <==> s.readable)
  {
    InsertedMarkerIsInvisible(b.render, at, marker, DROPIN);
    StripIdempotent(b.render, DROPIN);
  }

  /** This binary's own rendering, when it can be read, is conformant to itself, for every
      setting of the options. */
  lemma OwnRenderingConforms(fixed: string, o: UnitOptions, s: Scene)
    requires s.onGitHub && s.online && s.active && (s.hasTree || !s.hasFlatTree)
    ensures var text := RenderDropIn(fixed, o);
      ClassOf(SRM, DropIn(text), Binary(CURRENT_DROPIN, text), s).Healthy? <==> s.readable
  {
    RenderDropInVersion(fixed, o);
  }
}
