/** The system calls of an upgrade, numbered from its start, and what they come to: which
    end it takes and whether the unit is up then, read off the faults of the calls ahead. */
module AgentCalls {
  import opened AgentTree

  /** What becomes of one call: it works, it fails, or the process dies inside it. A call
      that does not finish may have done part of its work: `left` are the paths it did not
      reach, `torn` is what it wrote of a file. */
  datatype Fault = Fine | Error(left: set<Rel>, torn: string) | Crash(left: set<Rel>, torn: string)
  datatype Result = Ok | Err | Crashed

  type Calls = nat -> Fault

  function ResultOf(f: Fault): Result {
    match f
    case Fine => Ok
    case Error(_, _) => Err
    case Crash(_, _) => Crashed
  }

  /** Whether a stop or a start took effect, and whether the unit is still up after its
      self-test: when the call failed, its fault says so by leaving nothing undone. */
  predicate Took(f: Fault) {
    f.Fine? || f.left == {}
  }

  datatype Phase = Recovering | Stopping | Snapshotting | Swapping | Restoring | Discarding

  /** Down is the one error marked ErrRunnerDown; Refused, NotStopped, NotSnapshotted and
      RolledBack are plain errors. */
  datatype Outcome = Upgraded | Refused | NotStopped | NotSnapshotted | RolledBack | Down | Died(phase: Phase)

  /** How a call ends, and whether the unit is up then. */
  datatype End = End(outcome: Outcome, up: bool)

  // ---------------------------------------------------------------- recovery

  /** What a removal leaves: nothing, or the files it did not reach. */
  function Cut(t: Tree, top: string, f: Fault): Tree {
    if f.Fine? then t - {top}
    else if top in t then t[top := map p | p in t[top] && p in f.left :: t[top][p]]
    else t
  }

  /** Recovery of one directory: the tree and the next call. */
  function RecoverStep(o: Calls, t: Tree, c: nat, i: nat): (Tree, nat)
    requires i < |PAYLOAD|
  {
    var live, bak := PAYLOAD[i], Bak(PAYLOAD[i]);
    if bak !in t then (t, c)
    else if live in t then (Cut(t, bak, o(c)), c + 1)
    else if o(c).Fine? then (t[live := t[bak]] - {bak}, c + 1)
    else (t, c + 1)
  }

  predicate StepLives(o: Calls, t: Tree, c: nat, i: nat)
    requires i < |PAYLOAD|
  {
    Bak(PAYLOAD[i]) in t ==> !o(c).Crash?
  }

  /** The tree and the next call after a recovery. */
  function RecoveredAt(o: Calls, t: Tree, c: nat): (Tree, nat) {
    var (u, d) := RecoverStep(o, t, c, 0);
    RecoverStep(o, u, d, 1)
  }

  predicate Lives(o: Calls, t: Tree, c: nat) {
    StepLives(o, t, c, 0) && var (u, d) := RecoverStep(o, t, c, 0); StepLives(o, u, d, 1)
  }

  // ---------------------------------------------------------------- clear, then rename

  function Files(t: Tree, top: string): set<Rel> {
    if top in t then t[top].Keys else {}
  }

  /** Clearing a target with these files at c, then renaming onto it, works: only a file the
      clearing did not reach can stand in the way. */
  predicate Clears(o: Calls, there: set<Rel>, c: nat) {
    !o(c).Crash? && o(c + 1).Fine? && (o(c).Fine? || there !! o(c).left)
  }

  predicate Dies(o: Calls, c: nat) {
    o(c).Crash? || o(c + 1).Crash?
  }

  /** Moving the i-th directory aside works: its old snapshot is cleared, and a directory that
      is there is renamed. */
  predicate AsideWorks(o: Calls, t: Tree, c: nat, i: nat)
    requires i < |PAYLOAD|
  {
    if PAYLOAD[i] in t then Clears(o, Files(t, Bak(PAYLOAD[i])), c) else !o(c).Crash?
  }

  predicate AsideDies(o: Calls, t: Tree, c: nat, i: nat)
    requires i < |PAYLOAD|
  {
    o(c).Crash? || (PAYLOAD[i] in t && o(c + 1).Crash?)
  }

  /** What it comes to: the tree and the next call. */
  function AsideStep(o: Calls, t: Tree, c: nat, i: nat): (Tree, nat)
    requires i < |PAYLOAD|
  {
    var live, bak := PAYLOAD[i], Bak(PAYLOAD[i]);
    var u := Cut(t, bak, o(c));
    if live !in t || o(c).Crash? then (u, c + 1)
    else if Clears(o, Files(t, bak), c) then (u[bak := t[live]] - {live}, c + 2)
    else (u, c + 2)
  }

  /** A snapshot begun at c: it works, or dies, and the tree and the next call after it. */
  predicate SnapWorks(o: Calls, t: Tree, c: nat) {
    AsideWorks(o, t, c, 0) && var (u, d) := AsideStep(o, t, c, 0); AsideWorks(o, u, d, 1)
  }

  predicate SnapDies(o: Calls, t: Tree, c: nat) {
    if AsideWorks(o, t, c, 0) then
      var (u, d) := AsideStep(o, t, c, 0); AsideDies(o, u, d, 1)
    else AsideDies(o, t, c, 0)
  }

  function SnappedAt(o: Calls, t: Tree, c: nat): (Tree, nat) {
    var (u, d) := AsideStep(o, t, c, 0);
    if AsideWorks(o, t, c, 0) then AsideStep(o, u, d, 1) else (u, d)
  }

  /** The same for an upgrade begun at c: after the recovery, and the stop. */
  function SnapFrom(o: Calls, t: Tree, c: nat): (Tree, nat) {
    var (u, d) := RecoveredAt(o, t, c); SnappedAt(o, u, d + 1)
  }

  /** A snapshot begun at c moves the first directory aside and fails on the second, and the
      start after it is survived. */
  predicate HalfSnapshot(o: Calls, t: Tree, c: nat) {
    && PAYLOAD[0] in t && AsideWorks(o, t, c, 0) && !SnapWorks(o, t, c) && !SnapDies(o, t, c)
    && !o(SnappedAt(o, t, c).1).Crash?
  }

  /** A swap begun at c stops the unit, and then that. */
  predicate LosesFirst(o: Calls, t: Tree, c: nat) {
    o(c).Fine? && HalfSnapshot(o, t, c + 1)
  }

  /** The same for a whole upgrade begun at c, recovery included. */
  predicate LosesPayload(o: Calls, t: Tree, c: nat) {
    Lives(o, t, c) && var (u, d) := RecoveredAt(o, t, c); LosesFirst(o, u, d)
  }

  // ---------------------------------------------------------------- the swap

  /** How an extraction ends, and the next call: one call a file, up to the first that fails
      or the first unsafe entry. */
  function ExtractEnd(o: Calls, c: nat, archive: seq<Entry>): (end: (Result, nat))
    ensures c <= end.1 <= c + |archive|
    decreases |archive|
  {
    if archive == [] then (Ok, c)
    else if archive[0].Unsafe? then (Err, c)
    else if o(c).Fine? then ExtractEnd(o, c + 1, archive[1..])
    else (ResultOf(o(c)), c + 1)
  }

  lemma {:induction false} ExtractedWhole(o: Calls, c: nat, archive: seq<Entry>)
    ensures ExtractEnd(o, c, archive).0.Ok? ==> ExtractEnd(o, c, archive).1 == c + |archive|
    decreases |archive|
  {
    if archive == [] {
    } else {
      ExtractedWhole(o, c + 1, archive[1..]);
    }
  }

  /** The files below a name that the first n entries write. */
  function Reached(archive: seq<Entry>, n: nat, top: string): set<Rel> {
    set i | 0 <= i < n && i < |archive| && archive[i].Entry? && archive[i].top == top :: archive[i].rel
  }

  /** A payload directory as a rollback meets it: whether it has a snapshot, and the files in
      its place. */
  datatype Place = Place(held: bool, files: set<Rel>)

  function Met(t: Tree, i: nat): Place
    requires i < |PAYLOAD|
  {
    Place(Bak(PAYLOAD[i]) in t, Files(t, PAYLOAD[i]))
  }

  /** The same after n entries have been extracted over the moved tree m. */
  function PlaceAt(m: Tree, archive: seq<Entry>, n: nat, i: nat): Place
    requires i < |PAYLOAD|
  {
    Place(Bak(PAYLOAD[i]) in m || Reached(archive, n, Bak(PAYLOAD[i])) != {}, Reached(archive, n, PAYLOAD[i]))
  }

  /** Putting it back, from call c on; there is nothing to do without a snapshot. */
  predicate RestoreWorks(o: Calls, a: Place, c: nat) {
    a.held ==> Clears(o, a.files, c)
  }

  predicate RestoreDies(o: Calls, a: Place, c: nat) {
    a.held && Dies(o, c)
  }

  function RestoreCalls(a: Place): nat {
    if a.held then 2 else 0
  }

  datatype Tried = Tried(result: Result, up: bool, clock: nat)

  /** Chown, drop-in, start, self-test, up to the first that fails. */
  function FinishEnd(o: Calls, up: bool, e: nat): Tried {
    if !o(e).Fine? then Tried(ResultOf(o(e)), up, e + 1)
    else if !o(e + 1).Fine? then Tried(ResultOf(o(e + 1)), up, e + 2)
    else if !o(e + 2).Fine? then Tried(ResultOf(o(e + 2)), up || Took(o(e + 2)), e + 3)
    else Tried(ResultOf(o(e + 3)), Took(o(e + 3)), e + 4)
  }

  /** Extract, and if that works finish the swap. */
  function TryEnd(o: Calls, up: bool, c: nat, archive: seq<Entry>): Tried {
    var (r, e) := ExtractEnd(o, c, archive);
    if r.Ok? then FinishEnd(o, up, e) else Tried(r, up, e)
  }

  /** A rollback begun at s, of two directories met like this: stop, clear and rename each,
      start. */
  function RollEnd(o: Calls, a: Place, b: Place, up: bool, s: nat): End {
    var still, c := up && !Took(o(s)), s + 1 + RestoreCalls(a);
    var d := c + RestoreCalls(b);
    if o(s).Crash? then End(Died(Restoring), still)
    else if !RestoreWorks(o, a, s + 1) then
      if RestoreDies(o, a, s + 1) then End(Died(Restoring), still) else StartEnd(o, Down, still, c)
    else if !RestoreWorks(o, b, c) then
      if RestoreDies(o, b, c) then End(Died(Restoring), still) else StartEnd(o, Down, still, d)
    else StartEnd(o, RolledBack, still, d)
  }

  function StartEnd(o: Calls, out: Outcome, up: bool, c: nat): End {
    End(if o(c).Crash? then Died(Restoring) else out, up || Took(o(c)))
  }

  /** From the complete snapshot, which left tree m, to the end. */
  function ExchangeEnd(o: Calls, m: Tree, up: bool, c: nat, archive: seq<Entry>): End {
    var n := ExtractEnd(o, c, archive).1 - c;
    var t := TryEnd(o, up, c, archive);
    match t.result
    case Ok => End(if Dies(o, t.clock) then Died(Discarding) else Upgraded, t.up)
    case Crashed => End(Died(Swapping), t.up)
    case Err => RollEnd(o, PlaceAt(m, archive, n, 0), PlaceAt(m, archive, n, 1), t.up, t.clock)
  }

  /** The same from what the swap and the rollback came to. */
  lemma ExchangeBy(o: Calls, m: Tree, up: bool, c: nat, archive: seq<Entry>, s: Tried, n: nat, e: End)
    requires s == TryEnd(o, up, c, archive) && n == ExtractEnd(o, c, archive).1 - c
    requires s.result.Ok? ==> e == End(if Dies(o, s.clock) then Died(Discarding) else Upgraded, s.up)
    requires s.result.Crashed? ==> e == End(Died(Swapping), s.up)
    requires s.result.Err? ==>
               e == RollEnd(o, PlaceAt(m, archive, n, 0), PlaceAt(m, archive, n, 1), s.up, s.clock)
    ensures e == ExchangeEnd(o, m, up, c, archive)
  {}

  /** After a failed snapshot: the start that brings the agent back. */
  function GiveUpEnd(o: Calls, up: bool, c: nat): End {
    End(if o(c).Crash? then Died(Snapshotting) else NotSnapshotted, up || Took(o(c)))
  }

  /** From the snapshot to the end. */
  function StoppedEnd(o: Calls, t: Tree, up: bool, c: nat, archive: seq<Entry>): End {
    var (m, d) := SnappedAt(o, t, c);
    if SnapWorks(o, t, c) then ExchangeEnd(o, m, up, d, archive)
    else if SnapDies(o, t, c) then End(Died(Snapshotting), up)
    else GiveUpEnd(o, up, d)
  }

  /** From the stop to the end. */
  function SwapEnd(o: Calls, t: Tree, up: bool, c: nat, archive: seq<Entry>): End {
    match o(c)
    case Fine => StoppedEnd(o, t, false, c + 1, archive)
    case Error(_, _) => End(NotStopped, up && !Took(o(c)))
    case Crash(_, _) => End(Died(Stopping), up && !Took(o(c)))
  }

  lemma SwapBy(o: Calls, t: Tree, up: bool, c: nat, archive: seq<Entry>, d: nat, e: End)
    requires d == c + 1
    requires if o(c).Fine? then e == StoppedEnd(o, t, false, d, archive)
             else e == End(if o(c).Crash? then Died(Stopping) else NotStopped, up && !Took(o(c)))
    ensures e == SwapEnd(o, t, up, c, archive)
    ensures LosesFirst(o, t, c) <==> o(c).Fine? && HalfSnapshot(o, t, d)
  {}

  /** A whole upgrade that is not refused, from its first call on. */
  function Ahead(o: Calls, t: Tree, up: bool, c: nat, archive: seq<Entry>): End {
    if !Lives(o, t, c) then End(Died(Recovering), up)
    else var (u, d) := RecoveredAt(o, t, c); SwapEnd(o, u, up, d, archive)
  }

  lemma AheadBy(o: Calls, t: Tree, up: bool, c: nat, archive: seq<Entry>, u: Tree, d: nat)
    requires Lives(o, t, c) ==> (u, d) == RecoveredAt(o, t, c)
    ensures Ahead(o, t, up, c, archive) ==
            if Lives(o, t, c) then SwapEnd(o, u, up, d, archive) else End(Died(Recovering), up)
    ensures LosesPayload(o, t, c) <==> Lives(o, t, c) && LosesFirst(o, u, d)
  {}

  // ---------------------------------------------------------------- when the unit is up

  /** Whether the unit is up at the end of an upgrade that was neither refused nor marked
      down, by the calls from the start on:
      - not stopped: it was up, and the stop had no effect;
      - not snapshotted: the start after the failed rename took effect;
      - rolled back: the last start took effect, or the unit was up when the swap failed and
        the rollback's stop had no effect. */
  lemma UpIff(o: Calls, t: Tree, up: bool, c: nat, archive: seq<Entry>)
    ensures var e, (u, d) := Ahead(o, t, up, c, archive), RecoveredAt(o, t, c);
      e.outcome == Died(Recovering) || UpAfter(o, u, up, d, archive, e)
  {
    if Lives(o, t, c) {
      var (u, d) := RecoveredAt(o, t, c);
      SwapUpIff(o, u, up, d, archive);
    }
  }

  /** The same from the stop on, which is call d, of a swap from tree u that ends in e. */
  predicate UpAfter(o: Calls, u: Tree, up: bool, d: nat, archive: seq<Entry>, e: End) {
    var (m, c) := SnappedAt(o, u, d + 1);
    && (e.outcome == NotStopped ==> (e.up <==> up && !Took(o(d))))
    && (e.outcome == NotSnapshotted ==> (e.up <==> Took(o(c))))
    && UpAfterSwap(o, m, c, archive, e)
  }

  /** And from the extraction on, which is call c, over the moved tree m. */
  predicate UpAfterSwap(o: Calls, m: Tree, c: nat, archive: seq<Entry>, e: End) {
    var s, n := TryEnd(o, false, c, archive), ExtractEnd(o, c, archive).1 - c;
    var last := s.clock + 1 + RestoreCalls(PlaceAt(m, archive, n, 0)) + RestoreCalls(PlaceAt(m, archive, n, 1));
    && (e.outcome == RolledBack ==> (e.up <==> Took(o(last)) || (s.up && !Took(o(s.clock)))))
    && (e.outcome == Upgraded ==> e.up)
  }

  lemma SwapUpIff(o: Calls, u: Tree, up: bool, d: nat, archive: seq<Entry>)
    ensures UpAfter(o, u, up, d, archive, SwapEnd(o, u, up, d, archive))
  {
    var (m, c) := SnappedAt(o, u, d + 1);
    ExchangeUpIff(o, m, c, archive);
  }

  lemma ExchangeUpIff(o: Calls, m: Tree, c: nat, archive: seq<Entry>)
    ensures var e := ExchangeEnd(o, m, false, c, archive);
      UpAfterSwap(o, m, c, archive, e) && e.outcome !in {NotStopped, NotSnapshotted}
  {
    var s, n := TryEnd(o, false, c, archive), ExtractEnd(o, c, archive).1 - c;
    RollUpIff(o, PlaceAt(m, archive, n, 0), PlaceAt(m, archive, n, 1), s.up, s.clock);
  }

  lemma RollUpIff(o: Calls, a: Place, b: Place, up: bool, s: nat)
    ensures var e, last := RollEnd(o, a, b, up, s), s + 1 + RestoreCalls(a) + RestoreCalls(b);
      && (e.outcome == RolledBack ==> (e.up <==> Took(o(last)) || (up && !Took(o(s)))))
      && e.outcome in {RolledBack, Down, Died(Restoring)}
  {}

  /** When the swap failed with the unit up: the start took effect although it failed, or the
      self-test failed and did not find the unit dead. */
  lemma TriedUpIff(o: Calls, c: nat, archive: seq<Entry>)
    ensures var s, (r, e) := TryEnd(o, false, c, archive), ExtractEnd(o, c, archive);
      s.up <==> r.Ok? && o(e).Fine? && o(e + 1).Fine? && Took(o(e + 2)) && (o(e + 2).Fine? ==> Took(o(e + 3)))
  {}

  /** Reported as restored, and down: exactly these outcomes, with exactly these calls. */
  predicate RestoredButDown(o: Calls, t: Tree, up: bool, c: nat, archive: seq<Entry>) {
    Ahead(o, t, up, c, archive) in {End(NotStopped, false), End(NotSnapshotted, false), End(RolledBack, false)}
  }

  // ---------------------------------------------------------------- when it rolls back

  /** A rollback begun at s, of two directories met like this, is seen through to its last
      call, and puts both back, or not both. */
  predicate RollsThrough(o: Calls, a: Place, b: Place, s: nat, both: bool) {
    var c := s + 1 + RestoreCalls(a);
    var p, q := RestoreWorks(o, a, s + 1), RestoreWorks(o, b, c);
    && !o(s).Crash? && (p || !RestoreDies(o, a, s + 1)) && (!p || q || !RestoreDies(o, b, c))
    && !o(if p then c + RestoreCalls(b) else c).Crash? && (both <==> p && q)
  }

  /** A swap over the moved tree m whose extraction begins at c fails, and is rolled back so. */
  predicate FailsOver(o: Calls, m: Tree, c: nat, archive: seq<Entry>, both: bool) {
    var s, n := TryEnd(o, false, c, archive), ExtractEnd(o, c, archive).1 - c;
    s.result.Err? && RollsThrough(o, PlaceAt(m, archive, n, 0), PlaceAt(m, archive, n, 1), s.clock, both)
  }

  /** A swap from tree u whose stop is call d: stopped, snapshotted, and that. */
  predicate FailsThen(o: Calls, u: Tree, d: nat, archive: seq<Entry>, both: bool) {
    var (m, c) := SnappedAt(o, u, d + 1);
    o(d).Fine? && SnapWorks(o, u, d + 1) && FailsOver(o, m, c, archive, both)
  }

  /** An upgrade rolls back if and only if recovery is survived, its swap fails, the rollback
      is seen through, and every directory with a snapshot is put back; it ends down if and
      only if one of them is not. */
  lemma RollsBackIff(o: Calls, t: Tree, up: bool, c: nat, archive: seq<Entry>)
    ensures var e, (u, d) := Ahead(o, t, up, c, archive).outcome, RecoveredAt(o, t, c);
      && (e == RolledBack <==> Lives(o, t, c) && FailsThen(o, u, d, archive, true))
      && (e == Down <==> Lives(o, t, c) && FailsThen(o, u, d, archive, false))
  {
    if Lives(o, t, c) {
      var (u, d) := RecoveredAt(o, t, c);
      SwapOutcome(o, u, up, d, archive);
    }
  }

  lemma SwapOutcome(o: Calls, u: Tree, up: bool, d: nat, archive: seq<Entry>)
    ensures var e := SwapEnd(o, u, up, d, archive).outcome;
      (e == RolledBack <==> FailsThen(o, u, d, archive, true)) && (e == Down <==> FailsThen(o, u, d, archive, false))
  {
    var (m, c) := SnappedAt(o, u, d + 1);
    ExchangeOutcome(o, m, c, archive);
  }

  lemma ExchangeOutcome(o: Calls, m: Tree, c: nat, archive: seq<Entry>)
    ensures var e := ExchangeEnd(o, m, false, c, archive).outcome;
      && (e == RolledBack <==> FailsOver(o, m, c, archive, true))
      && (e == Down <==> FailsOver(o, m, c, archive, false))
  {
    var n := ExtractEnd(o, c, archive).1 - c;
    var tried := TryEnd(o, false, c, archive);
    RollOutcome(o, PlaceAt(m, archive, n, 0), PlaceAt(m, archive, n, 1), tried.up, tried.clock);
  }

  lemma RollOutcome(o: Calls, a: Place, b: Place, up: bool, s: nat)
    ensures var e := RollEnd(o, a, b, up, s).outcome;
      && (e == RolledBack <==> RollsThrough(o, a, b, s, true))
      && (e == Down <==> RollsThrough(o, a, b, s, false))
      && e in {RolledBack, Down, Died(Restoring)}
  {}

  // ---------------------------------------------------------------- a copy held only in a snapshot

  /** The directory is missing, and its snapshot is all there is of it. */
  predicate OnlyCopy(t: Tree, i: nat)
    requires i < |PAYLOAD|
  {
    PAYLOAD[i] !in t && Bak(PAYLOAD[i]) in t
  }

  /** It is whole in m, in its place or in its snapshot. */
  predicate StillWhole(t: Tree, m: Tree, i: nat)
    requires i < |PAYLOAD|
  {
    Agree(t, Bak(PAYLOAD[i]), m, PAYLOAD[i]) || Agree(t, Bak(PAYLOAD[i]), m, Bak(PAYLOAD[i]))
  }

  /** A removal takes some of these files, or the directory itself. */
  predicate Removes(f: Fault, there: set<Rel>) {
    f.Fine? || !(there <= f.left)
  }

  /** The call that would rename the i-th directory back, and the one that clears its snapshot,
      of an upgrade begun at c. */
  function BackCall(o: Calls, t: Tree, c: nat, i: nat): nat {
    if i == 0 then c else RecoverStep(o, t, c, 0).1
  }

  function ClearCall(o: Calls, t: Tree, c: nat, i: nat): nat {
    var (u, d) := RecoveredAt(o, t, c);
    if i == 0 then d + 1 else AsideStep(o, u, d + 1, 0).1
  }

  /** The snapshot gets as far as clearing: for the second directory, by moving the first. */
  predicate ComesToClear(o: Calls, t: Tree, c: nat, i: nat) {
    var (u, d) := RecoveredAt(o, t, c);
    i == 0 || AsideWorks(o, u, d + 1, 0)
  }

  /** The directory is not renamed back, and its snapshot is cleared. */
  predicate DestroysOnlyCopy(o: Calls, t: Tree, c: nat, i: nat)
    requires i < |PAYLOAD|
  {
    && !o(BackCall(o, t, c, i)).Fine? && ComesToClear(o, t, c, i)
    && Removes(o(ClearCall(o, t, c, i)), Files(t, Bak(PAYLOAD[i])))
  }

  lemma CutWholeIff(t: Tree, top: string, f: Fault)
    requires top in t
    ensures Agree(t, top, Cut(t, top, f), top) <==> !Removes(f, Files(t, top))
  {
    if !f.Fine? {
      var u := Cut(t, top, f);
      assert forall p :: p in u[top] <==> p in t[top] && p in f.left;
      if Files(t, top) <= f.left {
        assert u[top] == t[top];
      } else {
        var p :| p in Files(t, top) && p !in f.left;
        assert p in Data(t[top]) && p !in Data(u[top]);
      }
    }
  }

  /** The i-th directory and its snapshot are the same in both trees. */
  predicate SameDir(t: Tree, u: Tree, i: nat)
    requires i < |PAYLOAD|
  {
    var live, bak := PAYLOAD[i], Bak(PAYLOAD[i]);
    && (live in t <==> live in u) && (live in t ==> t[live] == u[live])
    && (bak in t <==> bak in u) && (bak in t ==> t[bak] == u[bak])
  }

  /** Neither recovery nor the snapshot of one directory touches the other. */
  lemma StepsFrame(o: Calls, t: Tree, c: nat, i: nat, j: nat)
    requires i < |PAYLOAD| && j < |PAYLOAD| && i != j
    ensures SameDir(t, RecoverStep(o, t, c, i).0, j) && SameDir(t, AsideStep(o, t, c, i).0, j)
  {
    Names();
  }

  /** Recovery of a directory that is only in its snapshot: in its place, or as it was. */
  lemma RecoverOnly(o: Calls, t: Tree, c: nat, i: nat)
    requires i < |PAYLOAD| && OnlyCopy(t, i)
    ensures var u, live, bak := RecoverStep(o, t, c, i).0, PAYLOAD[i], Bak(PAYLOAD[i]);
      if o(c).Fine? then live in u && u[live] == t[bak] && bak !in u else u == t
  {
    Names();
  }

  /** Its snapshot, then. */
  lemma AsideOnly(o: Calls, t: Tree, c: nat, i: nat)
    requires i < |PAYLOAD|
    ensures OnlyCopy(t, i) ==>
              (StillWhole(t, AsideStep(o, t, c, i).0, i) <==> !Removes(o(c), Files(t, Bak(PAYLOAD[i]))))
    ensures PAYLOAD[i] in t && Bak(PAYLOAD[i]) !in t ==>
              var m := AsideStep(o, t, c, i).0;
              (PAYLOAD[i] in m && m[PAYLOAD[i]] == t[PAYLOAD[i]]) ||
              (Bak(PAYLOAD[i]) in m && m[Bak(PAYLOAD[i])] == t[PAYLOAD[i]])
  {
    Names();
    if OnlyCopy(t, i) {
      CutWholeIff(t, Bak(PAYLOAD[i]), o(c));
    }
  }

  /** Recovered by call back, later moved aside from call clear on: `was` to `now` to `end`. */
  lemma OnlyThrough(o: Calls, was: Tree, back: nat, now: Tree, clear: nat, end: Tree, i: nat)
    requires i < |PAYLOAD| && OnlyCopy(was, i) && SameDir(RecoverStep(o, was, back, i).0, now, i)
    requires SameDir(AsideStep(o, now, clear, i).0, end, i)
    ensures StillWhole(was, end, i) <==> o(back).Fine? || !Removes(o(clear), Files(was, Bak(PAYLOAD[i])))
  {
    RecoverOnly(o, was, back, i);
    AsideOnly(o, now, clear, i);
  }

  /** After its own step the first directory is left alone. */
  lemma FirstStepStands(o: Calls, t: Tree, c: nat)
    ensures SameDir(RecoverStep(o, t, c, 0).0, RecoveredAt(o, t, c).0, 0)
    ensures SameDir(AsideStep(o, t, c, 0).0, SnappedAt(o, t, c).0, 0)
  {
    var (u, d) := RecoverStep(o, t, c, 0);
    StepsFrame(o, u, d, 1, 0);
    var (m, g) := AsideStep(o, t, c, 0);
    StepsFrame(o, m, g, 1, 0);
  }

  lemma FirstCalls(o: Calls, t: Tree, c: nat)
    ensures BackCall(o, t, c, 0) == c && ComesToClear(o, t, c, 0)
    ensures ClearCall(o, t, c, 0) == RecoveredAt(o, t, c).1 + 1
    ensures SnapFrom(o, t, c) == SnappedAt(o, RecoveredAt(o, t, c).0, RecoveredAt(o, t, c).1 + 1)
  {}

  lemma OnlyFirstLostIff(o: Calls, t: Tree, c: nat)
    requires OnlyCopy(t, 0)
    ensures StillWhole(t, SnapFrom(o, t, c).0, 0) <==> !DestroysOnlyCopy(o, t, c, 0)
  {
    var (v, e) := RecoveredAt(o, t, c);
    FirstCalls(o, t, c);
    FirstStepStands(o, t, c);
    FirstStepStands(o, v, e + 1);
    OnlyThrough(o, t, c, v, e + 1, SnappedAt(o, v, e + 1).0, 0);
  }

  lemma SameWhole(t: Tree, u: Tree, m: Tree, i: nat)
    requires i < |PAYLOAD| && SameDir(t, u, i)
    ensures OnlyCopy(t, i) <==> OnlyCopy(u, i)
    ensures OnlyCopy(t, i) ==> (StillWhole(t, m, i) <==> StillWhole(u, m, i))
    ensures Files(t, Bak(PAYLOAD[i])) == Files(u, Bak(PAYLOAD[i]))
  {}

  lemma OnlySecondLostIff(o: Calls, t: Tree, c: nat)
    requires OnlyCopy(t, 1)
    ensures StillWhole(t, SnapFrom(o, t, c).0, 1) <==> !DestroysOnlyCopy(o, t, c, 1)
  {
    var (u, d) := RecoverStep(o, t, c, 0);
    StepsFrame(o, t, c, 0, 1);
    var (v, e) := RecoveredAt(o, t, c);
    var (m, g) := AsideStep(o, v, e + 1, 0);
    StepsFrame(o, v, e + 1, 0, 1);
    var end := SnappedAt(o, v, e + 1).0;
    SameWhole(t, u, end, 1);
    if AsideWorks(o, v, e + 1, 0) {
      OnlyThrough(o, u, d, m, g, end, 1);
    } else {
      RecoverOnly(o, u, d, 1);
    }
  }

  /** What an earlier crash left only in its snapshot is still whole once this upgrade has
      tried to make its own, in its place or in its snapshot, if and only if recovery renamed
      it back or the snapshot did not get to clearing it, or cleared nothing. */
  lemma OnlyCopyLostIff(o: Calls, t: Tree, c: nat, i: nat)
    requires i < |PAYLOAD| && OnlyCopy(t, i)
    ensures StillWhole(t, SnapFrom(o, t, c).0, i) <==> !DestroysOnlyCopy(o, t, c, i)
  {
    if i == 0 {
      OnlyFirstLostIff(o, t, c);
    } else {
      OnlySecondLostIff(o, t, c);
    }
  }

  // ---------------------------------------------------------------- inputs that meet them

  lemma {:induction false} FineExtract(o: Calls, c: nat, archive: seq<Entry>)
    requires Safe(archive) && forall n :: c <= n < c + |archive| ==> o(n).Fine?
    ensures ExtractEnd(o, c, archive) == (Ok, c + |archive|)
    decreases |archive|
  {
    if archive == [] {
    } else {
      FineExtract(o, c + 1, archive[1..]);
    }
  }

  lemma CleanStart(o: Calls, t: Tree, c: nat)
    requires Bak(PAYLOAD[0]) !in t && Bak(PAYLOAD[1]) !in t
    ensures Lives(o, t, c) && RecoveredAt(o, t, c) == (t, c)
  {}

  /** Both directories are there, and no snapshot is. */
  predicate Healthy(t: Tree) {
    PAYLOAD[0] in t && PAYLOAD[1] in t && Bak(PAYLOAD[0]) !in t && Bak(PAYLOAD[1]) !in t
  }

  /** The first directory of a healthy tree has been moved aside. */
  lemma FirstAside(o: Calls, t: Tree, c: nat)
    requires Healthy(t) && o(c).Fine? && o(c + 1).Fine?
    ensures AsideWorks(o, t, c, 0)
    ensures var (u, d) := AsideStep(o, t, c, 0);
      d == c + 2 && Bak(PAYLOAD[0]) in u && PAYLOAD[1] in u && Bak(PAYLOAD[1]) !in u
  {
    Names();
  }

  lemma FineSnapshot(o: Calls, t: Tree, c: nat)
    requires Healthy(t) && forall n :: c <= n < c + 4 ==> o(n).Fine?
    ensures SnapWorks(o, t, c)
    ensures var (m, d) := SnappedAt(o, t, c); d == c + 4 && Bak(PAYLOAD[0]) in m && Bak(PAYLOAD[1]) in m
  {
    FirstAside(o, t, c);
    Names();
  }

  /** A runner reported as rolled back that is down: a healthy tree and a safe archive, where
      only the chown and the rollback's start fail. */
  lemma RolledBackCanBeDown(o: Calls, t: Tree, up: bool, archive: seq<Entry>)
    requires Healthy(t) && Safe(archive)
    requires var e := 5 + |archive|;
      o(e).Error? && o(e + 6).Error? && !Took(o(e + 6)) && forall n: nat :: n != e && n != e + 6 ==> o(n).Fine?
    ensures Ahead(o, t, up, 0, archive) == End(RolledBack, false)
    ensures RestoredButDown(o, t, up, 0, archive)
  {
    CleanStart(o, t, 0);
    FineSnapshot(o, t, 1);
    FineExtract(o, 5, archive);
  }

  /** A runner reported as rolled back that lost its payload: only the second rename fails. */
  lemma HalfSnapshotHappens(o: Calls, t: Tree, up: bool, archive: seq<Entry>)
    requires Healthy(t)
    requires o(4).Error? && forall n: nat :: n != 4 ==> o(n).Fine?
    ensures LosesPayload(o, t, 0) && Ahead(o, t, up, 0, archive) == End(NotSnapshotted, true)
  {
    CleanStart(o, t, 0);
    FirstAside(o, t, 1);
  }
}
