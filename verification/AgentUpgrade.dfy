/** UpgradeRunnerAgent: swap a runner's agent in place behind a rename snapshot, with any
    step failing or the machine dying at any point. */
module AgentUpgrade {
  import opened AgentTree
  import opened AgentCalls

  ghost predicate Plain(top: string) {
    forall j :: 0 <= j < |PAYLOAD| ==> top != PAYLOAD[j] && top != Bak(PAYLOAD[j])
  }

  ghost predicate SameAt(t: Tree, u: Tree, top: string) {
    (top in t <==> top in u) && (top in t ==> t[top] == u[top])
  }

  ghost predicate PlainSame(t: Tree, u: Tree) {
    forall top :: Plain(top) ==> SameAt(t, u, top)
  }

  ghost predicate HasPayload(t: Tree) {
    forall j :: 0 <= j < |PAYLOAD| ==> PAYLOAD[j] in t
  }

  /** The archive is a release archive: nothing in it is named like a snapshot. */
  ghost predicate LeavesSnapshots(archive: seq<Entry>) {
    forall j :: 0 <= j < |PAYLOAD| ==> !Touches(archive, Bak(PAYLOAD[j]))
  }

  ghost predicate PayloadKept(t: Tree, u: Tree) {
    forall j :: 0 <= j < |PAYLOAD| ==> SameAt(t, u, PAYLOAD[j])
  }

  /** The first k payload directories have been renamed aside, the others not. */
  ghost predicate Moved(t: Tree, u: Tree, k: nat) {
    && (forall j :: 0 <= j < |PAYLOAD| && j < k ==>
          PAYLOAD[j] !in u && (PAYLOAD[j] in t ==> Bak(PAYLOAD[j]) in u && u[Bak(PAYLOAD[j])] == t[PAYLOAD[j]]))
    && (forall j :: k <= j < |PAYLOAD| ==> SameAt(t, u, PAYLOAD[j]))
    && PlainSame(t, u)
  }

  /** The snapshot of a directory is back in its place; one without a snapshot is as it was. */
  ghost predicate Restored(t: Tree, u: Tree, sub: string) {
    Bak(sub) !in u && if Bak(sub) in t then sub in u && u[sub] == t[Bak(sub)] else SameAt(t, u, sub)
  }

  /** What the snapshot held is in its place, or still there; one without is as it was. */
  ghost predicate HeldSomewhere(t: Tree, u: Tree, sub: string) {
    if Bak(sub) in t then (sub in u && u[sub] == t[Bak(sub)]) || (Bak(sub) in u && u[Bak(sub)] == t[Bak(sub)])
    else Bak(sub) !in u && SameAt(t, u, sub)
  }

  /** The payload of u is, file by file, the payload of t. */
  ghost predicate SamePayload(t: Tree, u: Tree) {
    forall j :: 0 <= j < |PAYLOAD| ==> Agree(t, PAYLOAD[j], u, PAYLOAD[j])
  }

  /** The snapshots of u are, file by file, the directories of the payload of t. */
  ghost predicate SnapshotsHold(t: Tree, u: Tree) {
    forall j :: 0 <= j < |PAYLOAD| && PAYLOAD[j] in t ==> Agree(t, PAYLOAD[j], u, Bak(PAYLOAD[j]))
  }

  /** The payload of u is what the archive holds, and nothing else. */
  ghost predicate ArchivePayload(archive: seq<Entry>, u: Tree) {
    forall j :: 0 <= j < |PAYLOAD| ==> HoldsArchive(archive, u, PAYLOAD[j])
  }

  ghost predicate PayloadOwned(u: Tree, user: string) {
    forall j, p :: 0 <= j < |PAYLOAD| && PAYLOAD[j] in u && p in u[PAYLOAD[j]] ==> u[PAYLOAD[j]][p].owner == user
  }

  /** Outside the payload, a file the archive does not write keeps its contents. */
  ghost predicate OutsideKept(t: Tree, u: Tree, archive: seq<Entry>) {
    forall top, rel {:trigger Writes(archive, top, rel)} :: Plain(top) && !Writes(archive, top, rel) ==>
      (top in t && rel in t[top] <==> top in u && rel in u[top]) &&
      (top in t && rel in t[top] ==> u[top][rel].data == t[top][rel].data)
  }

  lemma SparesGrow(t: Tree, u: Tree, archive: seq<Entry>, i: nat, data: string)
    requires i < |archive| && archive[i].Entry? && Spares(t, u, archive[..i])
    ensures Spares(t, Put(u, archive[i].(data := data)), archive[..i + 1])
  {
    var e, v, a, b := archive[i].(data := data), Put(u, archive[i].(data := data)), archive[..i], archive[..i + 1];
    assert b[i] == archive[i];
    assert forall j :: 0 <= j < i ==> a[j] == b[j];
    forall top | top in v && top !in t ensures Touches(b, top) {
      if top in u { assert Touches(a, top); }
    }
    forall top, rel {:trigger Writes(b, top, rel)} | top in v && !Writes(b, top, rel)
      ensures if top in t && rel in t[top] then rel in v[top] && v[top][rel] == t[top][rel] else rel !in v[top]
    {
      assert !Writes(a, top, rel);
      assert top != e.top || rel != e.rel;
    }
  }

  lemma SparesWiden(t: Tree, u: Tree, archive: seq<Entry>, i: nat)
    requires i <= |archive| && Spares(t, u, archive[..i])
    ensures Spares(t, u, archive)
  {
    assert forall j :: 0 <= j < i ==> archive[..i][j] == archive[j];
    forall top | Touches(archive[..i], top) ensures Touches(archive, top) {}
    forall top, rel | Writes(archive[..i], top, rel) ensures Writes(archive, top, rel) {}
  }

  lemma UnpackGrow(t: Tree, archive: seq<Entry>, i: nat)
    requires i < |archive| && archive[i].Entry? && Safe(archive[..i])
    ensures Safe(archive[..i + 1]) && Unpack(t, archive[..i + 1]) == Put(Unpack(t, archive[..i]), archive[i])
  {
    assert archive[..i + 1][..i] == archive[..i];
    var longer := archive[..i + 1];
    forall j | 0 <= j < |longer| ensures longer[j].Entry? {
      if j < i { assert archive[..i][j].Entry?; }
    }
  }

  /** After a snapshot and an attempted swap, complete or cut short, the snapshots still
      hold the old payload, whichever directories there were. */
  lemma SnapshotSurvives(t: Tree, moved: Tree, mid: Tree, u: Tree, archive: seq<Entry>)
    requires LeavesSnapshots(archive)
    requires Moved(t, moved, |PAYLOAD|) && Spares(moved, mid, archive) && SameData(mid, u)
    ensures SnapshotsHold(t, u)
  {
    forall j | 0 <= j < |PAYLOAD| && PAYLOAD[j] in t ensures Agree(t, PAYLOAD[j], u, Bak(PAYLOAD[j])) {
      SparesUntouched(moved, mid, archive, Bak(PAYLOAD[j]));
      assert Agree(mid, Bak(PAYLOAD[j]), u, Bak(PAYLOAD[j]));
    }
  }

  /** After a complete swap the payload is the archive's own. */
  lemma SwapInstalls(t: Tree, moved: Tree, u: Tree, archive: seq<Entry>)
    requires Safe(archive) && Moved(t, moved, |PAYLOAD|) && SameData(Unpack(moved, archive), u)
    ensures ArchivePayload(archive, u)
  {
    forall j | 0 <= j < |PAYLOAD| ensures HoldsArchive(archive, u, PAYLOAD[j]) {
      UnpackAgrees(map[], moved, archive, PAYLOAD[j]);
      UnpackHolds(archive, PAYLOAD[j]);
      assert Agree(Unpack(moved, archive), PAYLOAD[j], u, PAYLOAD[j]);
      HoldsAgree(archive, Unpack(map[], archive), u, PAYLOAD[j]);
    }
  }

  /** What a rollback, or a discard, finds: the snapshots, and in the payload what the
      extraction wrote. */
  lemma MetAfter(moved: Tree, mid: Tree, u: Tree, archive: seq<Entry>, n: nat, j: nat)
    requires j < |PAYLOAD| && PAYLOAD[j] !in moved && SameData(mid, u) && AddsFiles(moved, mid, archive, n)
    ensures Met(u, j) == PlaceAt(moved, archive, n, j)
  {
    SameDataFiles(mid, u, PAYLOAD[j]);
    assert Agree(mid, Bak(PAYLOAD[j]), u, Bak(PAYLOAD[j]));
    assert Gains(moved, mid, PAYLOAD[j], Reached(archive, n, PAYLOAD[j]));
    assert Gains(moved, mid, Bak(PAYLOAD[j]), Reached(archive, n, Bak(PAYLOAD[j])));
    assert Files(moved, PAYLOAD[j]) == {};
  }

  lemma MetBoth(moved: Tree, mid: Tree, u: Tree, archive: seq<Entry>, n: nat)
    requires PAYLOAD[0] !in moved && PAYLOAD[1] !in moved && SameData(mid, u) && AddsFiles(moved, mid, archive, n)
    ensures Met(u, 0) == PlaceAt(moved, archive, n, 0) && Met(u, 1) == PlaceAt(moved, archive, n, 1)
  {
    MetAfter(moved, mid, u, archive, n, 0);
    MetAfter(moved, mid, u, archive, n, 1);
  }

  lemma ArchiveKept(archive: seq<Entry>, v: Tree, u: Tree)
    requires ArchivePayload(archive, v) && PayloadKept(v, u)
    ensures ArchivePayload(archive, u)
  {
    forall j | 0 <= j < |PAYLOAD| ensures HoldsArchive(archive, u, PAYLOAD[j]) {
      assert HoldsArchive(archive, v, PAYLOAD[j]) && SameAt(v, u, PAYLOAD[j]);
      HoldsAgree(archive, v, u, PAYLOAD[j]);
    }
  }

  /** In place of the i-th directory is what an extraction of n entries wrote there, and if it
      was the whole archive, what the archive holds there. */
  ghost predicate ExtractedAt(archive: seq<Entry>, n: nat, whole: bool, u: Tree, sub: string) {
    && Files(u, sub) == Reached(archive, n, sub) && (sub in u <==> Reached(archive, n, sub) != {})
    && (whole ==> HoldsArchive(archive, u, sub))
  }

  /** Where each end of a failed swap leaves one directory. `m` is the tree the snapshot left:
      what it holds aside is in the snapshot, back in its place, or in one of the two; a
      directory with nothing aside keeps what the extraction wrote. */
  ghost predicate DirEnds(m: Tree, archive: seq<Entry>, n: nat, whole: bool, u: Tree, out: Outcome, sub: string) {
    var bak := Bak(sub);
    && (out == Died(Swapping) ==> Agree(m, bak, u, bak))
    && (out == RolledBack ==>
          bak !in u && if bak in m then Agree(m, bak, u, sub) else ExtractedAt(archive, n, whole, u, sub))
    && (out in {Down, Died(Restoring)} ==>
          if bak in m then Agree(m, bak, u, sub) || Agree(m, bak, u, bak)
          else bak !in u && ExtractedAt(archive, n, whole, u, sub))
  }

  /** The same for both, with how much was extracted by the calls after the snapshot. */
  ghost predicate Ends(o: Calls, snapped: (Tree, nat), archive: seq<Entry>, u: Tree, out: Outcome) {
    var (m, c) := snapped;
    var (r, e) := ExtractEnd(o, c, archive);
    forall j :: 0 <= j < |PAYLOAD| ==> DirEnds(m, archive, e - c, r.Ok?, u, out, PAYLOAD[j])
  }

  /** The last calls removed the snapshots, one each: of those there were, one is left exactly
      where its call did not work. */
  predicate LeftoversByCalls(o: Calls, m: Tree, archive: seq<Entry>, u: Tree, end: nat) {
    end >= |PAYLOAD| && forall j :: 0 <= j < |PAYLOAD| ==>
      (Bak(PAYLOAD[j]) in u <==> PlaceAt(m, archive, |archive|, j).held && !o(end - |PAYLOAD| + j).Fine?)
  }

  lemma LeftoversBy(o: Calls, m: Tree, archive: seq<Entry>, v: Tree, u: Tree, start: nat, end: nat)
    requires end == start + |PAYLOAD|
    requires forall j :: 0 <= j < |PAYLOAD| ==> Met(v, j).held == PlaceAt(m, archive, |archive|, j).held
    requires forall j :: 0 <= j < |PAYLOAD| ==>
               (Bak(PAYLOAD[j]) in u <==> Bak(PAYLOAD[j]) in v && !o(start + j).Fine?)
    ensures LeftoversByCalls(o, m, archive, u, end)
  {}

  /** Where an upgrade leaves the payload, by its calls: t is the tree whose snapshot began at
      call c, end the first call after it all. */
  ghost predicate PayloadByCalls(o: Calls, t: Tree, c: nat, archive: seq<Entry>, out: Outcome, u: Tree, end: nat) {
    match out
    case Upgraded => LeftoversByCalls(o, SnappedAt(o, t, c).0, archive, u, end)
    case NotSnapshotted | Died(Snapshotting) => u == SnappedAt(o, t, c).0
    case RolledBack | Down | Died(Swapping) | Died(Restoring) =>
      LeavesSnapshots(archive) ==> Ends(o, SnappedAt(o, t, c), archive, u, out)
    case _ => true
  }

  /** Before the snapshot there is nothing to say. */
  lemma NothingYet(o: Calls, t: Tree, c: nat, archive: seq<Entry>, out: Outcome, u: Tree, end: nat)
    requires out in {Refused, NotStopped, Died(Recovering), Died(Stopping)}
    ensures PayloadByCalls(o, t, c, archive, out, u, end)
  {}

  lemma EndsBy(o: Calls, m: Tree, c: nat, archive: seq<Entry>, n: nat, whole: bool, u: Tree, out: Outcome)
    requires n == ExtractEnd(o, c, archive).1 - c && whole == ExtractEnd(o, c, archive).0.Ok?
    requires forall j :: 0 <= j < |PAYLOAD| ==> DirEnds(m, archive, n, whole, u, out, PAYLOAD[j])
    ensures Ends(o, (m, c), archive, u, out)
  {}

  /** So a directory that was there before the snapshot is there, whatever the other is. */
  ghost predicate Outcomes(t: Tree, u: Tree, out: Outcome) {
    && (out == RolledBack ==> NoSnapshot(u))
    && forall j :: 0 <= j < |PAYLOAD| && PAYLOAD[j] in t ==>
         && (out == Died(Swapping) ==> Agree(t, PAYLOAD[j], u, Bak(PAYLOAD[j])))
         && (out == RolledBack ==> Agree(t, PAYLOAD[j], u, PAYLOAD[j]))
         && (out in {Down, Died(Restoring)} ==>
               Agree(t, PAYLOAD[j], u, PAYLOAD[j]) || Agree(t, PAYLOAD[j], u, Bak(PAYLOAD[j])))
  }

  lemma EndsKeepOld(t: Tree, o: Calls, snapped: (Tree, nat), archive: seq<Entry>, u: Tree, out: Outcome)
    requires Moved(t, snapped.0, |PAYLOAD|) && Ends(o, snapped, archive, u, out)
    ensures Outcomes(t, u, out)
  {
    var (m, c) := snapped;
    var (r, e) := ExtractEnd(o, c, archive);
    assert forall j :: 0 <= j < |PAYLOAD| ==> DirEnds(m, archive, e - c, r.Ok?, u, out, PAYLOAD[j]);
    forall j | 0 <= j < |PAYLOAD| && PAYLOAD[j] in t ensures Agree(t, PAYLOAD[j], m, Bak(PAYLOAD[j])) {}
  }

  /** What an extraction wrote where there was nothing. */
  lemma ExtractedThrough(m: Tree, mid: Tree, v: Tree, archive: seq<Entry>, n: nat, whole: bool, sub: string)
    requires sub !in m && SameData(mid, v) && AddsFiles(m, mid, archive, n)
    requires whole ==> Safe(archive) && mid == Unpack(m, archive)
    ensures ExtractedAt(archive, n, whole, v, sub)
  {
    SameDataFiles(mid, v, sub);
    assert Gains(m, mid, sub, Reached(archive, n, sub));
    assert Agree(mid, sub, v, sub) && Files(m, sub) == {};
    if whole {
      UnpackAgrees(map[], m, archive, sub);
      UnpackHolds(archive, sub);
      HoldsAgree(archive, Unpack(map[], archive), v, sub);
    }
  }

  /** From the moved tree over the extraction and the rollback, if there was one, to the end. */
  lemma DirChain(m: Tree, mid: Tree, v: Tree, u: Tree, archive: seq<Entry>, n: nat, whole: bool, out: Outcome,
                 sub: string)
    requires !Touches(archive, Bak(sub)) && Spares(m, mid, archive)
    requires SameData(mid, v) && ExtractedAt(archive, n, whole, v, sub)
    requires out == Died(Swapping) ==> u == v
    requires out in {RolledBack, Down, Died(Restoring)} ==> HeldSomewhere(v, u, sub)
    requires out == RolledBack ==> Restored(v, u, sub)
    ensures DirEnds(m, archive, n, whole, u, out, sub)
  {
    SparesUntouched(m, mid, archive, Bak(sub));
    assert Agree(mid, Bak(sub), v, Bak(sub));
    assert Agree(m, Bak(sub), v, Bak(sub));
  }

  lemma OutsideChain(t: Tree, moved: Tree, mid: Tree, v: Tree, u: Tree, archive: seq<Entry>)
    requires PlainSame(t, moved) && Spares(moved, mid, archive) && SameData(mid, v) && PlainSame(v, u)
    ensures OutsideKept(t, u, archive)
  {
    forall top, rel {:trigger Writes(archive, top, rel)} | Plain(top) && !Writes(archive, top, rel)
      ensures top in t && rel in t[top] <==> top in u && rel in u[top]
      ensures top in t && rel in t[top] ==> u[top][rel].data == t[top][rel].data
    {
      assert SameAt(t, moved, top) && SameAt(v, u, top) && Agree(mid, top, v, top);
      if top in mid {
        assert forall p :: p in mid[top] <==> p in Data(mid[top]);
        assert forall p :: p in v[top] <==> p in Data(v[top]);
        if rel in mid[top] { assert Data(mid[top])[rel] == Data(v[top])[rel]; }
      }
    }
  }

  /** The i-th directory is now its snapshot; there is nothing to move when it was missing. */
  ghost predicate Aside(t: Tree, u: Tree, i: nat)
    requires i < |PAYLOAD|
  {
    PAYLOAD[i] !in u && (PAYLOAD[i] in t ==> Bak(PAYLOAD[i]) in u && u[Bak(PAYLOAD[i])] == t[PAYLOAD[i]])
  }

  lemma MovedOn(was: Tree, t: Tree, u: Tree, i: nat, ok: bool)
    requires i < |PAYLOAD| && Moved(was, t, i)
    requires forall top :: top != PAYLOAD[i] && top != Bak(PAYLOAD[i]) ==> SameAt(t, u, top)
    requires if ok then Aside(t, u, i) else SameAt(t, u, PAYLOAD[i])
    ensures Moved(was, u, if ok then i + 1 else i)
  {
    Names();
    forall j | 0 <= j < |PAYLOAD| && j != i ensures SameAt(t, u, PAYLOAD[j]) && SameAt(t, u, Bak(PAYLOAD[j])) {}
    assert SameAt(was, t, PAYLOAD[i]);
    forall top | Plain(top) ensures SameAt(was, u, top) { assert SameAt(was, t, top) && SameAt(t, u, top); }
    forall j | i < j < |PAYLOAD| ensures SameAt(was, u, PAYLOAD[j]) {
      assert SameAt(was, t, PAYLOAD[j]) && SameAt(t, u, PAYLOAD[j]);
    }
  }

  lemma PlainOutside(t: Tree, u: Tree, archive: seq<Entry>)
    requires PlainSame(t, u)
    ensures OutsideKept(t, u, archive)
  {
    forall top | Plain(top) ensures SameAt(t, u, top) {}
  }

  /** The payload is where it was exactly when nothing of it has been moved aside. */
  lemma MovedIntactIff(t: Tree, u: Tree, k: nat)
    requires k < |PAYLOAD| && Moved(t, u, k)
    ensures SamePayload(t, u) <==> k == 0 || PAYLOAD[0] !in t
  {
    forall j | k <= j < |PAYLOAD| ensures Agree(t, PAYLOAD[j], u, PAYLOAD[j]) {
      assert SameAt(t, u, PAYLOAD[j]);
    }
    if k > 0 && PAYLOAD[0] in t {
      assert !Agree(t, PAYLOAD[0], u, PAYLOAD[0]);
    }
  }

  /** How a restore of both directories ends, by its calls. */
  ghost predicate RestoreEnds(o: Calls, t: Tree, c: nat, r: Result, clock: nat) {
    var a, b := Met(t, 0), Met(t, 1);
    var d := c + RestoreCalls(a);
    var p, q := RestoreWorks(o, a, c), RestoreWorks(o, b, d);
    && (r.Ok? <==> p && q)
    && (r.Crashed? <==> if p then RestoreDies(o, b, d) else RestoreDies(o, a, c))
    && (!r.Crashed? ==> clock == if p then d + RestoreCalls(b) else d)
  }

  /** One more directory dealt with, the others as they were. */
  lemma RestoredOn(t: Tree, mid: Tree, u: Tree, i: nat, ok: bool)
    requires i < |PAYLOAD| && PlainSame(t, mid)
    requires forall j :: 0 <= j < i ==> Restored(t, mid, PAYLOAD[j])
    requires forall j :: i <= j < |PAYLOAD| ==> SameAt(t, mid, Bak(PAYLOAD[j])) && SameAt(t, mid, PAYLOAD[j])
    requires forall top :: top != PAYLOAD[i] && top != Bak(PAYLOAD[i]) ==> SameAt(mid, u, top)
    requires if ok then Restored(mid, u, PAYLOAD[i])
             else Bak(PAYLOAD[i]) in mid && SameAt(mid, u, Bak(PAYLOAD[i]))
    ensures PlainSame(t, u)
    ensures forall j :: 0 <= j < i ==> Restored(t, u, PAYLOAD[j])
    ensures ok ==> Restored(t, u, PAYLOAD[i])
    ensures forall j :: i < j < |PAYLOAD| ==> SameAt(t, u, Bak(PAYLOAD[j])) && SameAt(t, u, PAYLOAD[j])
    ensures forall j :: 0 <= j < |PAYLOAD| ==> HeldSomewhere(t, u, PAYLOAD[j])
  {
    Names();
    forall top | Plain(top) ensures SameAt(t, u, top) { assert SameAt(t, mid, top) && SameAt(mid, u, top); }
    forall j | 0 <= j < |PAYLOAD| && j != i
      ensures SameAt(mid, u, Bak(PAYLOAD[j])) && SameAt(mid, u, PAYLOAD[j])
    {}
  }

  lemma CutFiles(t: Tree, top: string, f: Fault)
    ensures Files(Cut(t, top, f), top) == {} <==> f.Fine? || Files(t, top) !! f.left
  {
    if !f.Fine? {
      var there, now := Files(t, top), Files(Cut(t, top, f), top);
      assert forall p :: p in now <==> p in there && p in f.left;
      if there !! f.left {
        assert forall p :: p !in now;
      } else {
        var p :| p in there && p in f.left;
        assert p in now;
      }
    }
  }

  function Entered(e: Entry, top: string): set<Rel> {
    if e.Entry? && e.top == top then {e.rel} else {}
  }

  /** Below a name, u has these files more than t. */
  ghost predicate Gains(t: Tree, u: Tree, top: string, more: set<Rel>) {
    Files(u, top) == Files(t, top) + more && (top in u <==> top in t || more != {})
  }

  lemma PutFiles(t: Tree, e: Entry)
    requires e.Entry?
    ensures forall top :: Gains(t, Put(t, e), top, Entered(e, top))
  {}

  /** The first n writes of an extraction have added their files to t. */
  ghost predicate AddsFiles(t: Tree, u: Tree, archive: seq<Entry>, n: nat) {
    forall top :: Gains(t, u, top, Reached(archive, n, top))
  }

  lemma GainsMore(t: Tree, mid: Tree, u: Tree, top: string, a: set<Rel>, b: set<Rel>)
    requires Gains(t, mid, top, a) && Gains(mid, u, top, b)
    ensures Gains(t, u, top, a + b)
  {}

  lemma ReachedNext(archive: seq<Entry>, i: nat, top: string)
    requires i < |archive|
    ensures Reached(archive, i + 1, top) == Reached(archive, i, top) + Entered(archive[i], top)
  {}

  lemma AddsNext(t: Tree, mid: Tree, u: Tree, archive: seq<Entry>, i: nat)
    requires i < |archive| && AddsFiles(t, mid, archive, i)
    requires forall top :: Gains(mid, u, top, Entered(archive[i], top))
    ensures AddsFiles(t, u, archive, i + 1)
  {
    var n := i + 1;
    forall top ensures Gains(t, u, top, Reached(archive, n, top)) {
      ReachedNext(archive, i, top);
      GainsMore(t, mid, u, top, Reached(archive, i, top), Entered(archive[i], top));
    }
  }

  lemma AddsNothing(t: Tree, archive: seq<Entry>)
    ensures AddsFiles(t, t, archive, 0)
  {
    forall top ensures Gains(t, t, top, Reached(archive, 0, top)) {
      assert Reached(archive, 0, top) == {};
    }
  }

  /** The first i entries have been extracted into t. */
  ghost predicate Unpacked(t: Tree, u: Tree, archive: seq<Entry>, i: nat)
    requires i <= |archive|
  {
    && Safe(archive[..i]) && u == Unpack(t, archive[..i])
    && Spares(t, u, archive[..i]) && AddsFiles(t, u, archive, i)
  }

  lemma ExtractEndStep(o: Calls, c: nat, archive: seq<Entry>, i: nat)
    requires i < |archive|
    ensures ExtractEnd(o, c, archive[i..]) ==
            if archive[i].Unsafe? then (Err, c)
            else if o(c).Fine? then ExtractEnd(o, c + 1, archive[i + 1..])
            else (ResultOf(o(c)), c + 1)
  {
    assert archive[i..][0] == archive[i] && archive[i..][1..] == archive[i + 1..];
  }

  lemma SameDataFiles(t: Tree, u: Tree, top: string)
    requires SameData(t, u)
    ensures Files(t, top) == Files(u, top)
  {
    assert Agree(t, top, u, top);
    if top in t {
      assert t[top].Keys == Data(t[top]).Keys && u[top].Keys == Data(u[top]).Keys;
    }
  }

  class RunnerHost {
    var tree: Tree
    var running: bool
    var clock: nat
    const oracle: Calls

    constructor (tree: Tree, running: bool, oracle: Calls)
      ensures this.tree == tree && this.running == running && clock == 0 && this.oracle == oracle
    {
      this.tree, this.running, clock, this.oracle := tree, running, 0, oracle;
    }

    /** Every call since `since` worked. */
    ghost predicate AllFine(since: nat)
      reads this
    {
      forall n :: since <= n < clock ==> oracle(n).Fine?
    }

    ghost predicate LastFailed()
      reads this
    {
      clock > 0 && !oracle(clock - 1).Fine?
    }

    // -------------------------------------------------------------- system calls

    method Tick() returns (f: Fault)
      modifies this`clock
      ensures f == oracle(old(clock)) && clock == old(clock) + 1
    {
      f := oracle(clock);
      clock := clock + 1;
    }

    method Call() returns (r: Result)
      modifies this`clock
      ensures clock == old(clock) + 1 && r == ResultOf(oracle(old(clock)))
    {
      var f := Tick();
      r := ResultOf(f);
    }

    /** Removal may stop half way, leaving the directory with some of its files. */
    method RemoveAll(top: string) returns (r: Result)
      modifies this`tree, this`clock
      ensures clock == old(clock) + 1 && r == ResultOf(oracle(old(clock)))
      ensures tree == Cut(old(tree), top, oracle(old(clock)))
      ensures forall t :: t != top ==> SameAt(old(tree), tree, t)
      ensures top in tree <==> top in old(tree) && !r.Ok?
    {
      var f := Tick();
      tree, r := Cut(tree, top, f), ResultOf(f);
    }

    /** The same, with what it means for the other names. */
    method Remove(top: string) returns (r: Result)
      modifies this`tree, this`clock
      ensures clock == old(clock) + 1 && r == ResultOf(oracle(old(clock)))
      ensures forall t :: t != top ==> (t in tree <==> t in old(tree))
      ensures forall t :: t != top && t in tree ==> tree[t] == old(tree)[t]
      ensures top in tree <==> top in old(tree) && !r.Ok?
    {
      r := RemoveAll(top);
    }

    /** Rename is atomic, and refuses to replace a directory that is not empty. */
    method Rename(a: string, b: string) returns (r: Result)
      requires a in tree && a != b
      modifies this`tree, this`clock
      ensures clock == old(clock) + 1
      ensures r.Ok? <==> oracle(old(clock)).Fine? && Files(old(tree), b) == {}
      ensures r.Crashed? <==> oracle(old(clock)).Crash?
      ensures r.Ok? ==> tree == old(tree)[b := old(tree)[a]] - {a}
      ensures !r.Ok? ==> tree == old(tree)
    {
      var f := Tick();
      if f.Fine? && (b !in tree || tree[b] == map[]) {
        tree, r := tree[b := tree[a]] - {a}, Ok;
      } else {
        r := if f.Crash? then Crashed else Err;
      }
    }

    /** Write one file of the archive; it is there even when the write is cut short. */
    method ExtractOne(archive: seq<Entry>, i: nat, ghost was: Tree) returns (r: Result)
      requires i < |archive| && archive[i].Entry? && Spares(was, tree, archive[..i])
      modifies this`tree, this`clock
      ensures r.Ok? ==> tree == Put(old(tree), archive[i])
      ensures Spares(was, tree, archive[..i + 1])
      ensures clock == old(clock) + 1 && r == ResultOf(oracle(old(clock)))
      ensures forall top :: Gains(old(tree), tree, top, Entered(archive[i], top))
    {
      var f := Tick();
      var data := if f.Fine? then archive[i].data else f.torn;
      assert forall top :: Entered(archive[i].(data := data), top) == Entered(archive[i], top);
      SparesGrow(was, tree, archive, i, data);
      PutFiles(tree, archive[i].(data := data));
      tree := Put(tree, archive[i].(data := data));
      r := ResultOf(f);
    }

    method ExtractNext(archive: seq<Entry>, i: nat, ghost t: Tree) returns (r: Result)
      requires i < |archive| && archive[i].Entry? && Unpacked(t, tree, archive, i)
      modifies this`tree, this`clock
      ensures clock == old(clock) + 1 && r == ResultOf(oracle(old(clock)))
      ensures if r.Ok? then Unpacked(t, tree, archive, i + 1)
              else Spares(t, tree, archive) && AddsFiles(t, tree, archive, i + 1)
    {
      ghost var mid := tree;
      r := ExtractOne(archive, i, t);
      AddsNext(t, mid, tree, archive, i);
      if r.Ok? {
        UnpackGrow(t, archive, i);
      } else {
        SparesWiden(t, tree, archive, i + 1);
      }
    }

    method Extract(archive: seq<Entry>) returns (r: Result)
      modifies this`tree, this`clock
      ensures r.Ok? ==> Safe(archive) && tree == Unpack(old(tree), archive)
      ensures r.Ok? ==> forall top :: Extracted(old(tree), tree, archive, top)
      ensures AllFine(old(clock)) && Safe(archive) ==> r.Ok?
      ensures Spares(old(tree), tree, archive)
      ensures (r, clock) == ExtractEnd(oracle, old(clock), archive)
      ensures AddsFiles(old(tree), tree, archive, clock - old(clock))
    {
      ghost var t, c := tree, clock;
      AddsNothing(tree, archive);
      for i := 0 to |archive|
        invariant Unpacked(t, tree, archive, i) && clock == c + i
        invariant ExtractEnd(oracle, c, archive) == ExtractEnd(oracle, clock, archive[i..])
      {
        ExtractEndStep(oracle, clock, archive, i);
        if archive[i].Unsafe? {
          SparesWiden(t, tree, archive, i);
          return Err;
        }
        r := ExtractNext(archive, i, t);
        if !r.Ok? { return; }
      }
      assert archive[..|archive|] == archive;
      forall top ensures Extracted(t, tree, archive, top) { UnpackMeans(t, archive, top); }
      r := Ok;
    }

    method Chown(user: string) returns (r: Result)
      modifies this`tree, this`clock
      ensures SameData(old(tree), tree) && clock == old(clock) + 1 && r == ResultOf(oracle(old(clock)))
      ensures r.Ok? ==> forall top, p :: top in tree && p in tree[top] ==> tree[top][p].owner == user
    {
      var f := Tick();
      var left := if f.Fine? then {} else f.left;
      tree := map top | top in tree ::
        map p | p in tree[top] :: if p in left then tree[top][p] else tree[top][p].(owner := user);
      r := ResultOf(f);
    }

    method Start() returns (r: Result)
      modifies this`running, this`clock
      ensures clock == old(clock) + 1 && r == ResultOf(oracle(old(clock)))
      ensures running <==> old(running) || Took(oracle(old(clock)))
    {
      var f := Tick();
      running, r := running || Took(f), ResultOf(f);
    }

    method Stop() returns (r: Result)
      modifies this`running, this`clock
      ensures clock == old(clock) + 1 && r == ResultOf(oracle(old(clock)))
      ensures running <==> old(running) && !Took(oracle(old(clock)))
    {
      var f := Tick();
      running, r := running && !Took(f), ResultOf(f);
    }

    /** waitActive: the unit may die of what makes it fail, or come through it. */
    method SelfTest() returns (r: Result)
      modifies this`running, this`clock
      ensures clock == old(clock) + 1 && r == ResultOf(oracle(old(clock)))
      ensures running <==> old(running) && Took(oracle(old(clock)))
    {
      var f := Tick();
      running, r := running && Took(f), ResultOf(f);
    }

    // -------------------------------------------------------------- the snapshot helpers

    method RecoverSub(i: nat) returns (r: Result)
      requires i < |PAYLOAD|
      modifies this`tree, this`clock
      ensures clock >= old(clock)
      ensures forall top :: top != PAYLOAD[i] && top != Bak(PAYLOAD[i]) ==> SameAt(old(tree), tree, top)
      ensures Bak(PAYLOAD[i]) !in old(tree) ==> r.Ok? && tree == old(tree) && clock == old(clock)
      ensures AllFine(old(clock)) ==> r.Ok? && tree == RecoverOne(old(tree), PAYLOAD[i])
      ensures (tree, clock) == RecoverStep(oracle, old(tree), old(clock), i)
      ensures r.Crashed? <==> !StepLives(oracle, old(tree), old(clock), i)
      ensures PAYLOAD[i] in old(tree) ==> SameAt(old(tree), tree, PAYLOAD[i])
    {
      Names();
      var live, bak := PAYLOAD[i], Bak(PAYLOAD[i]);
      r := Ok;
      if bak in tree {
        if live !in tree {
          r := Rename(bak, live);
        } else {
          r := RemoveAll(bak);
        }
      }
    }

    /** Failures of single calls are ignored here, as they are by the caller. */
    method RecoverAgentSnapshot() returns (r: Result)
      modifies this`tree, this`clock
      ensures clock >= old(clock) && PlainSame(old(tree), tree) && !r.Err?
      ensures AllFine(old(clock)) ==> r.Ok? && tree == Recovered(old(tree))
      ensures HasPayload(old(tree)) ==> PayloadKept(old(tree), tree)
      ensures r.Ok? <==> Lives(oracle, old(tree), old(clock))
      ensures r.Ok? ==> (tree, clock) == RecoveredAt(oracle, old(tree), old(clock))
      ensures NoSnapshot(old(tree)) ==> r.Ok? && tree == old(tree)
    {
      Names();
      ghost var t, c := tree, clock;
      for i := 0 to |PAYLOAD|
        invariant clock >= c && PlainSame(t, tree)
        invariant NoSnapshot(t) ==> tree == t
        invariant HasPayload(t) ==> PayloadKept(t, tree)
        invariant if i == 0 then (tree, clock) == (t, c)
                  else if i == 1 then StepLives(oracle, t, c, 0) && (tree, clock) == RecoverStep(oracle, t, c, 0)
                  else Lives(oracle, t, c) && (tree, clock) == RecoveredAt(oracle, t, c)
        invariant AllFine(c) ==>
          tree == if i == 0 then t else if i == 1 then RecoverOne(t, PAYLOAD[0]) else Recovered(t)
      {
        ghost var mid := tree;
        r := RecoverSub(i);
        forall top | Plain(top) ensures SameAt(t, tree, top) {
          assert SameAt(t, mid, top) && SameAt(mid, tree, top);
        }
        if r.Crashed? { return; }
      }
      r := Ok;
    }

    /** The two calls for one directory: clear a stale leftover, rename. */
    method MoveAside(i: nat) returns (r: Result)
      requires i < |PAYLOAD|
      modifies this`tree, this`clock
      ensures clock >= old(clock) && (AllFine(old(clock)) ==> r.Ok?)
      ensures forall top :: top != PAYLOAD[i] && top != Bak(PAYLOAD[i]) ==> SameAt(old(tree), tree, top)
      ensures if r.Ok? then Aside(old(tree), tree, i) else SameAt(old(tree), tree, PAYLOAD[i])
      ensures r.Ok? <==> AsideWorks(oracle, old(tree), old(clock), i)
      ensures r.Crashed? <==> AsideDies(oracle, old(tree), old(clock), i)
      ensures (tree, clock) == AsideStep(oracle, old(tree), old(clock), i)
    {
      Names();
      var src, bak := PAYLOAD[i], Bak(PAYLOAD[i]);
      ghost var t, c := tree, clock;
      r := RemoveAll(bak);
      if r.Crashed? { return; }
      assert SameAt(t, tree, src);
      if src in tree {
        CutFiles(t, bak, oracle(c));
        r := Rename(src, bak);
      } else {
        r := Ok;
      }
    }

    method SnapshotOne(i: nat, ghost was: Tree) returns (r: Result)
      requires i < |PAYLOAD| && Moved(was, tree, i)
      modifies this`tree, this`clock
      ensures clock >= old(clock) && Moved(was, tree, if r.Ok? then i + 1 else i) && (AllFine(old(clock)) ==> r.Ok?)
      ensures r.Ok? <==> AsideWorks(oracle, old(tree), old(clock), i)
      ensures r.Crashed? <==> AsideDies(oracle, old(tree), old(clock), i)
      ensures (tree, clock) == AsideStep(oracle, old(tree), old(clock), i)
    {
      ghost var t := tree;
      r := MoveAside(i);
      MovedOn(was, t, tree, i, r.Ok?);
    }

    /** `k` counts the directories dealt with. It ends as its calls say, with the tree they say;
        a failed one leaves the payload as it was exactly when the first directory was not
        moved. */
    method SnapshotAgentPayload() returns (r: Result, ghost k: nat)
      modifies this`tree, this`clock
      ensures clock >= old(clock) && k <= |PAYLOAD| && Moved(old(tree), tree, k)
      ensures if r.Ok? then k == |PAYLOAD| else k < |PAYLOAD|
      ensures AllFine(old(clock)) ==> r.Ok?
      ensures r.Ok? <==> SnapWorks(oracle, old(tree), old(clock))
      ensures r.Crashed? <==> SnapDies(oracle, old(tree), old(clock))
      ensures (tree, clock) == SnappedAt(oracle, old(tree), old(clock))
      ensures !r.Ok? ==> (SamePayload(old(tree), tree) <==>
                          !AsideWorks(oracle, old(tree), old(clock), 0) || PAYLOAD[0] !in old(tree))
    {
      k := 0;
      ghost var t, c := tree, clock;
      for i := 0 to |PAYLOAD|
        invariant clock >= c && k == i && Moved(t, tree, i)
        invariant i == 0 ==> (tree, clock) == (t, c)
        invariant i >= 1 ==> AsideWorks(oracle, t, c, 0)
        invariant i == 1 ==> (tree, clock) == AsideStep(oracle, t, c, 0)
        invariant i == 2 ==> SnapWorks(oracle, t, c) && (tree, clock) == SnappedAt(oracle, t, c)
      {
        r := SnapshotOne(i, t);
        if !r.Ok? {
          MovedIntactIff(t, tree, k);
          return;
        }
        k := i + 1;
      }
      r := Ok;
    }

    /** One directory with a snapshot: clear what is in its place, rename. */
    method RestoreOne(i: nat) returns (r: Result)
      requires i < |PAYLOAD|
      modifies this`tree, this`clock
      ensures clock >= old(clock)
      ensures forall top :: top != PAYLOAD[i] && top != Bak(PAYLOAD[i]) ==> SameAt(old(tree), tree, top)
      ensures if r.Ok? then Restored(old(tree), tree, PAYLOAD[i])
              else Bak(PAYLOAD[i]) in old(tree) && SameAt(old(tree), tree, Bak(PAYLOAD[i]))
      ensures r.Ok? <==> RestoreWorks(oracle, Met(old(tree), i), old(clock))
      ensures r.Crashed? <==> RestoreDies(oracle, Met(old(tree), i), old(clock))
      ensures !r.Crashed? ==> clock == old(clock) + RestoreCalls(Met(old(tree), i))
    {
      Names();
      var dst, bak := PAYLOAD[i], Bak(PAYLOAD[i]);
      ghost var t, c := tree, clock;
      r := Ok;
      if bak in tree {
        r := RemoveAll(dst);
        assert SameAt(t, tree, bak);
        if r.Crashed? { return; }
        CutFiles(t, dst, oracle(c));
        r := Rename(bak, dst);
      }
    }

    /** Whatever happens, what a snapshot held is back in its place, or still in the snapshot,
        and a directory without one is left as it was. */
    method RestoreAgentPayload() returns (r: Result)
      modifies this`tree, this`clock
      ensures clock >= old(clock) && PlainSame(old(tree), tree)
      ensures r.Ok? ==> forall j :: 0 <= j < |PAYLOAD| ==> Restored(old(tree), tree, PAYLOAD[j])
      ensures forall j :: 0 <= j < |PAYLOAD| ==> HeldSomewhere(old(tree), tree, PAYLOAD[j])
      ensures RestoreEnds(oracle, old(tree), old(clock), r, clock)
    {
      ghost var t, c := tree, clock;
      for i := 0 to |PAYLOAD|
        invariant clock >= c && PlainSame(t, tree)
        invariant forall j :: 0 <= j < i ==> Restored(t, tree, PAYLOAD[j])
        invariant forall j :: i <= j < |PAYLOAD| ==> SameAt(t, tree, Bak(PAYLOAD[j])) && SameAt(t, tree, PAYLOAD[j])
        invariant i == 0 ==> clock == c
        invariant i >= 1 ==> RestoreWorks(oracle, Met(t, 0), c)
        invariant i == 1 ==> clock == c + RestoreCalls(Met(t, 0))
        invariant i == 2 ==> RestoreWorks(oracle, Met(t, 1), c + RestoreCalls(Met(t, 0)))
        invariant i == 2 ==> clock == c + RestoreCalls(Met(t, 0)) + RestoreCalls(Met(t, 1))
      {
        ghost var mid := tree;
        assert Met(mid, i) == Met(t, i);
        r := RestoreOne(i);
        RestoredOn(t, mid, tree, i, r.Ok?);
        if !r.Ok? { return; }
      }
      r := Ok;
    }

    /** Which leftovers a discard leaves is decided by its calls, one a directory. */
    method DiscardAgentSnapshot() returns (r: Result)
      modifies this`tree, this`clock
      ensures clock >= old(clock) && PlainSame(old(tree), tree) && !r.Err?
      ensures forall j :: 0 <= j < |PAYLOAD| ==> SameAt(old(tree), tree, PAYLOAD[j])
      ensures AllFine(old(clock)) ==> r.Ok? && NoSnapshot(tree)
      ensures r.Ok? <==> !Dies(oracle, old(clock))
      ensures r.Ok? ==> clock == old(clock) + |PAYLOAD|
      ensures r.Ok? ==> forall j :: 0 <= j < |PAYLOAD| ==>
                (Bak(PAYLOAD[j]) in tree <==> Bak(PAYLOAD[j]) in old(tree) && !oracle(old(clock) + j).Fine?)
    {
      Names();
      for i := 0 to |PAYLOAD|
        invariant clock == old(clock) + i && PlainSame(old(tree), tree)
        invariant forall n :: old(clock) <= n < clock ==> !oracle(n).Crash?
        invariant forall j :: 0 <= j < |PAYLOAD| ==> SameAt(old(tree), tree, PAYLOAD[j])
        invariant forall j :: 0 <= j < i ==>
                    (Bak(PAYLOAD[j]) in tree <==> Bak(PAYLOAD[j]) in old(tree) && !oracle(old(clock) + j).Fine?)
        invariant forall j :: i <= j < |PAYLOAD| ==> SameAt(old(tree), tree, Bak(PAYLOAD[j]))
      {
        r := Remove(Bak(PAYLOAD[i]));
        if r.Crashed? { return; }
      }
      r := Ok;
    }

    // -------------------------------------------------------------- the upgrade

    /** Chown, re-assert the drop-in, start, self-test. */
    method FinishSwap(user: string) returns (r: Result)
      modifies this`tree, this`running, this`clock
      ensures clock >= old(clock) && SameData(old(tree), tree)
      ensures Tried(r, running, clock) == FinishEnd(oracle, old(running), old(clock))
      ensures AllFine(old(clock)) ==> r.Ok?
      ensures r.Ok? ==> running && forall top, p :: top in tree && p in tree[top] ==> tree[top][p].owner == user
    {
      r := Chown(user);
      if !r.Ok? { return; }
      r := Call();   // the hardening drop-in lives outside the tree
      if !r.Ok? { return; }
      r := Start();
      if !r.Ok? { return; }
      r := SelfTest();
    }

    /** Extract, then finish. `mid` is the tree the extraction of n entries left. */
    method TrySwap(archive: seq<Entry>, user: string) returns (r: Result, ghost mid: Tree, ghost n: nat)
      modifies this`tree, this`running, this`clock
      ensures clock >= old(clock) && Spares(old(tree), mid, archive) && SameData(mid, tree)
      ensures Tried(r, running, clock) == TryEnd(oracle, old(running), old(clock), archive)
      ensures n == ExtractEnd(oracle, old(clock), archive).1 - old(clock) && AddsFiles(old(tree), mid, archive, n)
      ensures ExtractEnd(oracle, old(clock), archive).0.Ok? ==> Safe(archive) && mid == Unpack(old(tree), archive)
      ensures r.Ok? ==> ExtractEnd(oracle, old(clock), archive).0.Ok? && n == |archive| && running
      ensures AllFine(old(clock)) && Safe(archive) ==> r.Ok?
      ensures r.Ok? ==> forall top, p :: top in tree && p in tree[top] ==> tree[top][p].owner == user
    {
      ExtractedWhole(oracle, clock, archive);
      n := clock;
      r := Extract(archive);
      mid, n := tree, clock - n;
      if r.Ok? {
        r := FinishSwap(user);
      }
    }

    method RollBack() returns (out: Outcome)
      modifies this`tree, this`running, this`clock
      ensures clock > old(clock) && PlainSame(old(tree), tree)
      ensures out in {RolledBack, Down, Died(Restoring)}
      ensures out in {RolledBack, Down} ==> running || LastFailed()
      ensures out.RolledBack? ==> forall j :: 0 <= j < |PAYLOAD| ==> Restored(old(tree), tree, PAYLOAD[j])
      ensures forall j :: 0 <= j < |PAYLOAD| ==> HeldSomewhere(old(tree), tree, PAYLOAD[j])
      ensures End(out, running) == RollEnd(oracle, Met(old(tree), 0), Met(old(tree), 1), old(running), old(clock))
    {
      out := Died(Restoring);
      var stopped := Stop();
      if stopped.Crashed? { return; }
      var restored := RestoreAgentPayload();
      if restored.Crashed? { return; }
      var started := Start();
      if started.Crashed? { return; }
      out := if restored.Err? then Down else RolledBack;
    }

    /** The end of a swap that worked: discard the snapshots. */
    method Keep(archive: seq<Entry>, user: string, ghost t: Tree, ghost moved: Tree) returns (out: Outcome)
      requires Safe(archive) && Moved(t, moved, |PAYLOAD|) && SameData(Unpack(moved, archive), tree) && running
      requires AddsFiles(moved, Unpack(moved, archive), archive, |archive|)
      requires forall top, p :: top in tree && p in tree[top] ==> tree[top][p].owner == user
      modifies this`tree, this`clock
      ensures clock >= old(clock) && PlainSame(old(tree), tree) && out in {Upgraded, Died(Discarding)}
      ensures ArchivePayload(archive, tree) && PayloadOwned(tree, user)
      ensures out == Upgraded ==> clock >= old(clock) + |PAYLOAD|
      ensures out == Upgraded ==> LeftoversByCalls(oracle, moved, archive, tree, clock)
      ensures AllFine(old(clock)) ==> out == Upgraded && NoSnapshot(tree)
      ensures out == if Dies(oracle, old(clock)) then Died(Discarding) else Upgraded
    {
      ghost var v := tree;
      SwapInstalls(t, moved, v, archive);
      MetBoth(moved, Unpack(moved, archive), v, archive, |archive|);
      ghost var c := clock;
      var r := DiscardAgentSnapshot();
      ArchiveKept(archive, v, tree);
      if r.Ok? { LeftoversBy(oracle, moved, archive, v, tree, c, clock); }
      out := if r.Ok? then Upgraded else Died(Discarding);
    }

    /** The end of a swap that failed: nothing after a crash, else the rollback. `mid` is the
        tree the extraction of n entries left, `whole` when they were all. */
    method Undo(r: Result, archive: seq<Entry>, ghost t: Tree, ghost moved: Tree, ghost mid: Tree, ghost n: nat,
                ghost whole: bool)
      returns (out: Outcome)
      requires !r.Ok? && Moved(t, moved, |PAYLOAD|) && Spares(moved, mid, archive) && SameData(mid, tree)
      requires AddsFiles(moved, mid, archive, n) && (whole ==> Safe(archive) && mid == Unpack(moved, archive))
      modifies this`tree, this`running, this`clock
      ensures clock >= old(clock) && PlainSame(old(tree), tree) && (!out.Died? ==> clock > old(clock))
      ensures out in {RolledBack, Down, Died(Swapping), Died(Restoring)}
      ensures !out.Died? ==> running || LastFailed()
      ensures LeavesSnapshots(archive) ==>
                forall j :: 0 <= j < |PAYLOAD| ==> DirEnds(moved, archive, n, whole, tree, out, PAYLOAD[j])
      ensures r.Crashed? ==> out == Died(Swapping) && running == old(running)
      ensures r.Err? ==>
                var a, b := PlaceAt(moved, archive, n, 0), PlaceAt(moved, archive, n, 1);
                End(out, running) == RollEnd(oracle, a, b, old(running), old(clock))
    {
      ghost var v := tree;
      MetBoth(moved, mid, v, archive, n);
      out := Died(Swapping);
      if r.Err? {
        out := RollBack();
      }
      if LeavesSnapshots(archive) {
        forall j | 0 <= j < |PAYLOAD| ensures DirEnds(moved, archive, n, whole, tree, out, PAYLOAD[j]) {
          ExtractedThrough(moved, mid, v, archive, n, whole, PAYLOAD[j]);
          DirChain(moved, mid, v, tree, archive, n, whole, out, PAYLOAD[j]);
        }
      }
    }

    /** From the complete snapshot to the end; `t` is the tree it was taken of. */
    method Exchange(archive: seq<Entry>, user: string, ghost t: Tree) returns (out: Outcome)
      requires Moved(t, tree, |PAYLOAD|)
      modifies this`tree, this`running, this`clock
      ensures clock >= old(clock) && OutsideKept(t, tree, archive) && (!out.Died? ==> clock > old(clock))
      ensures out in {Upgraded, RolledBack, Down, Died(Swapping), Died(Restoring), Died(Discarding)}
      ensures !out.Died? ==> running || LastFailed()
      ensures End(out, running) == ExchangeEnd(oracle, old(tree), old(running), old(clock), archive)
      ensures out in {Died(Swapping), RolledBack, Down, Died(Restoring)} && LeavesSnapshots(archive) ==>
                Ends(oracle, (old(tree), old(clock)), archive, tree, out) && Outcomes(t, tree, out)
      ensures out in {Upgraded, Died(Discarding)} ==> ArchivePayload(archive, tree)
      ensures out == Upgraded ==> LeftoversByCalls(oracle, old(tree), archive, tree, clock)
      ensures AllFine(old(clock)) && Safe(archive) ==> out == Upgraded
      ensures out == Upgraded ==> running && PayloadOwned(tree, user) && (AllFine(old(clock)) ==> NoSnapshot(tree))
    {
      ghost var moved, c := tree, clock;
      ghost var whole := ExtractEnd(oracle, c, archive).0.Ok?;
      var r; ghost var mid: Tree, n: nat;
      r, mid, n := TrySwap(archive, user);
      ghost var v, s := tree, Tried(r, running, clock);
      if r.Ok? {
        out := Keep(archive, user, t, moved);
      } else {
        out := Undo(r, archive, t, moved, mid, n, whole);
        if LeavesSnapshots(archive) {
          EndsBy(oracle, moved, c, archive, n, whole, tree, out);
          EndsKeepOld(t, oracle, (moved, c), archive, tree, out);
        }
      }
      ExchangeBy(oracle, moved, old(running), c, archive, s, n, End(out, running));
      OutsideChain(t, moved, mid, v, tree, archive);
    }

    /** After a failed snapshot: bring the agent back up, and leave its tree alone. */
    method GiveUp(r: Result) returns (out: Outcome)
      requires !r.Ok?
      modifies this`running, this`clock
      ensures out == if r.Err? && !oracle(old(clock)).Crash? then NotSnapshotted else Died(Snapshotting)
      ensures clock == if r.Err? then old(clock) + 1 else old(clock)
      ensures End(out, running) == if r.Err? then GiveUpEnd(oracle, old(running), old(clock))
                                   else End(Died(Snapshotting), old(running))
      ensures !out.Died? ==> running || LastFailed()
    {
      out := Died(Snapshotting);
      if r.Err? {
        var started := Start();
        if !started.Crashed? { out := NotSnapshotted; }
      }
    }

    /** From the snapshot to the end. `k` counts the directories it dealt with. */
    method SwapStopped(archive: seq<Entry>, user: string) returns (out: Outcome, ghost k: nat)
      modifies this`tree, this`running, this`clock
      ensures clock >= old(clock) && OutsideKept(old(tree), tree, archive) && (!out.Died? ==> clock > old(clock))
      ensures out !in {Refused, NotStopped, Died(Stopping), Died(Recovering)}
      ensures !out.Died? ==> running || LastFailed()
      ensures End(out, running) == StoppedEnd(oracle, old(tree), old(running), old(clock), archive)
      ensures PayloadByCalls(oracle, old(tree), old(clock), archive, out, tree, clock)
      ensures out in {NotSnapshotted, Died(Snapshotting)} ==> k < |PAYLOAD| && Moved(old(tree), tree, k)
      ensures LeavesSnapshots(archive) ==> Outcomes(old(tree), tree, out)
      ensures out == NotSnapshotted && !SamePayload(old(tree), tree) <==> HalfSnapshot(oracle, old(tree), old(clock))
      ensures out in {Upgraded, Died(Discarding)} ==> ArchivePayload(archive, tree)
      ensures AllFine(old(clock)) && Safe(archive) ==> out == Upgraded
      ensures out == Upgraded ==> running && PayloadOwned(tree, user) && (AllFine(old(clock)) ==> NoSnapshot(tree))
    {
      ghost var t := tree;
      var r;
      r, k := SnapshotAgentPayload();
      if r.Ok? {
        out := Exchange(archive, user, t);
      } else {
        PlainOutside(t, tree, archive);
        out := GiveUp(r);
      }
    }

    /** From the stop to the end: for every tree, how it ends, whether the unit is up then and
        where each payload directory is, by the calls ahead. `snap` is the first call after the
        stop. */
    method SwapAgent(archive: seq<Entry>, user: string) returns (out: Outcome, ghost snap: nat, ghost k: nat)
      modifies this`tree, this`running, this`clock
      ensures clock > old(clock) && OutsideKept(old(tree), tree, archive) && out !in {Refused, Died(Recovering)}
      ensures !out.Died? ==> running || LastFailed()
      ensures End(out, running) == SwapEnd(oracle, old(tree), old(running), old(clock), archive)
      ensures out in {NotStopped, Died(Stopping)} ==> tree == old(tree)
      ensures snap == old(clock) + 1 && PayloadByCalls(oracle, old(tree), snap, archive, out, tree, clock)
      ensures out in {NotSnapshotted, Died(Snapshotting)} ==> k < |PAYLOAD| && Moved(old(tree), tree, k)
      ensures LeavesSnapshots(archive) ==> Outcomes(old(tree), tree, out)
      ensures out == NotSnapshotted && !SamePayload(old(tree), tree) <==> LosesFirst(oracle, old(tree), old(clock))
      ensures out in {Upgraded, Died(Discarding)} ==> ArchivePayload(archive, tree)
      ensures AllFine(old(clock)) && Safe(archive) ==> out == Upgraded
      ensures out == Upgraded ==> running && PayloadOwned(tree, user) && (AllFine(old(clock)) ==> NoSnapshot(tree))
    {
      k := 0;
      ghost var t, up, c := tree, running, clock;
      var r := Stop();
      snap := clock;
      if r.Ok? {
        out, k := SwapStopped(archive, user);
      } else {
        PlainOutside(tree, tree, archive);
        SameIsSame(tree);
        out := if r.Err? then NotStopped else Died(Stopping);
        NothingYet(oracle, tree, snap, archive, out, tree, clock);
      }
      SwapBy(oracle, t, up, c, archive, snap, End(out, running));
    }

    /** The whole call. `base` is the tree the swap started from, once recovery was done, and
        `snap` the first call after the stop. */
    method UpgradeRunnerAgent(unitInstalled: bool, verified: bool, archive: seq<Entry>, user: string)
      returns (out: Outcome, ghost base: Tree, ghost snap: nat, ghost k: nat)
      modifies this`tree, this`running, this`clock
      ensures out == Refused <==> !unitInstalled || ".runner" !in old(tree) || !verified
      ensures out == Refused ==> tree == old(tree) && running == old(running) && clock == old(clock)
      ensures PlainSame(old(tree), base) && (NoSnapshot(old(tree)) ==> base == old(tree))
      ensures HasPayload(old(tree)) ==> PayloadKept(old(tree), base)
      // how it ends, and whether the unit is up then, by the calls ahead
      ensures out != Refused ==>
                End(out, running) == Ahead(oracle, old(tree), old(running), old(clock), archive)
      // a unit is only left down by a stop or a start that did not work
      ensures out !in {Upgraded, Refused} && !out.Died? ==> running || LastFailed()
      // where the payload is then: for every tree, directory by directory
      ensures out !in {Refused, Died(Recovering)} ==>
                var (u, d) := RecoveredAt(oracle, old(tree), old(clock)); base == u && snap == d + 1
      ensures out == NotStopped ==> tree == base
      ensures PayloadByCalls(oracle, base, snap, archive, out, tree, clock)
      ensures out in {NotSnapshotted, Died(Snapshotting)} ==> k < |PAYLOAD| && Moved(base, tree, k)
      ensures LeavesSnapshots(archive) ==> Outcomes(base, tree, out)
      ensures out in {Upgraded, Died(Discarding)} ==> ArchivePayload(archive, tree)
      ensures out == Upgraded ==> running && PayloadOwned(tree, user)
      ensures out != Died(Recovering) ==> OutsideKept(base, tree, archive)
      // a snapshot costs the payload exactly when the calls ahead say so
      ensures out != Refused ==>
                (out == NotSnapshotted && !SamePayload(base, tree) <==> LosesPayload(oracle, old(tree), old(clock)))
      ensures out != Refused && AllFine(old(clock)) && Safe(archive) ==> out == Upgraded && NoSnapshot(tree)
    {
      base, snap, k := tree, clock, 0;
      if !unitInstalled || ".runner" !in tree || !verified {
        SameIsSame(tree);
        PlainOutside(tree, tree, archive);
        NothingYet(oracle, tree, clock, archive, Refused, tree, clock);
        return Refused, base, snap, k;
      }
      ghost var t, up, c := tree, running, clock;
      var r := RecoverAgentSnapshot();
      base, snap := tree, clock;
      AheadBy(oracle, t, up, c, archive, base, snap);
      if r.Crashed? {
        NothingYet(oracle, tree, clock, archive, Died(Recovering), tree, clock);
        return Died(Recovering), base, snap, k;
      }
      out, snap, k := SwapAgent(archive, user);
    }
  }

  lemma SameIsSame(t: Tree)
    ensures SamePayload(t, t)
  {}

  // ---------------------------------------------------------------- what survives a crash

  /** A crash at any point of the snapshot, then recovery: every directory there was, whole. */
  lemma CrashInSnapshotRecovers(t: Tree, u: Tree, k: nat)
    requires Moved(t, u, k)
    ensures NoSnapshot(Recovered(u))
    ensures forall j :: 0 <= j < |PAYLOAD| && PAYLOAD[j] in t ==> Agree(t, PAYLOAD[j], Recovered(u), PAYLOAD[j])
  {
    forall j | 0 <= j < |PAYLOAD| && PAYLOAD[j] in t ensures Agree(t, PAYLOAD[j], Recovered(u), PAYLOAD[j]) {
      RecoverExactly(u, j);
      assert j >= k ==> SameAt(t, u, PAYLOAD[j]);
    }
    RecoverExactly(u, 0);
  }

  /** A crash while the snapshot is being discarded, then recovery: the complete new
      payload, if and only if no directory the archive lacks still has its snapshot. */
  lemma CrashInDiscardRecoversIff(archive: seq<Entry>, u: Tree)
    requires ArchivePayload(archive, u)
    ensures NoSnapshot(Recovered(u))
    ensures ArchivePayload(archive, Recovered(u)) <==>
              forall j :: 0 <= j < |PAYLOAD| ==> PAYLOAD[j] in u || Bak(PAYLOAD[j]) !in u
  {
    forall j | 0 <= j < |PAYLOAD|
      ensures HoldsArchive(archive, Recovered(u), PAYLOAD[j]) <==> PAYLOAD[j] in u || Bak(PAYLOAD[j]) !in u
    {
      RecoverExactly(u, j);
      assert HoldsArchive(archive, u, PAYLOAD[j]);
      if PAYLOAD[j] in u || Bak(PAYLOAD[j]) !in u { HoldsAgree(archive, u, Recovered(u), PAYLOAD[j]); }
    }
    RecoverExactly(u, 0);
  }

  /** A crash inside the swap, then recovery: a payload directory is the old one if and
      only if the extraction had not created it yet, or had by then made it equal. */
  lemma CrashInSwapRecoversIff(t: Tree, u: Tree, j: nat)
    requires j < |PAYLOAD| && PAYLOAD[j] in t && SnapshotsHold(t, u)
    ensures NoSnapshot(Recovered(u))
    ensures Agree(t, PAYLOAD[j], Recovered(u), PAYLOAD[j]) <==>
              PAYLOAD[j] !in u || Agree(t, PAYLOAD[j], u, PAYLOAD[j])
  {
    RecoverExactly(u, j);
    assert Agree(t, PAYLOAD[j], u, Bak(PAYLOAD[j]));
  }

  // ---------------------------------------------------------------- what a rollback cannot bring back

  /** A snapshot of a tree that has only the second directory. */
  lemma SnapSecondOnly(o: Calls, t: Tree, c: nat)
    requires PAYLOAD[0] !in t && PAYLOAD[1] in t && Bak(PAYLOAD[1]) !in t
    requires forall n :: c <= n < c + 3 ==> o(n).Fine?
    ensures SnapWorks(o, t, c)
    ensures var (m, d) := SnappedAt(o, t, c);
      d == c + 3 && PAYLOAD[0] !in m && Bak(PAYLOAD[0]) !in m && Bak(PAYLOAD[1]) in m
  {
    Names();
  }

  /** The input: `bin` only in its snapshot, and recovery's rename fails. The snapshot of this
      upgrade deletes it, and an archive that does not extract is rolled back from: reported as
      restored and running, with no `bin` anywhere. */
  lemma OnlyCopyCanBeLost(o: Calls, t: Tree, up: bool, u: Tree, end: nat)
    requires OnlyCopy(t, 0) && PAYLOAD[1] in t && Bak(PAYLOAD[1]) !in t
    requires o(0).Error? && forall n: nat :: n != 0 ==> o(n).Fine?
    ensures RecoveredAt(o, t, 0) == (t, 1) && DestroysOnlyCopy(o, t, 0, 0)
    ensures Ahead(o, t, up, 0, [Unsafe]) == End(RolledBack, true)
    ensures PayloadByCalls(o, t, 2, [Unsafe], RolledBack, u, end) ==> PAYLOAD[0] !in u && Bak(PAYLOAD[0]) !in u
  {
    SnapSecondOnly(o, t, 2);
    assert RecoveredAt(o, t, 0) == (t, 1);
    var (m, c) := SnappedAt(o, t, 2);
    assert ExtractEnd(o, c, [Unsafe]) == (Err, c);
    assert Reached([Unsafe], 0, PAYLOAD[0]) == {} && Reached([Unsafe], 0, Bak(PAYLOAD[0])) == {};
    if PayloadByCalls(o, t, 2, [Unsafe], RolledBack, u, end) {
      assert Ends(o, (m, c), [Unsafe], u, RolledBack);
      assert DirEnds(m, [Unsafe], 0, false, u, RolledBack, PAYLOAD[0]);
    }
  }

  /** Only the chown fails: rolled back, and up. */
  lemma OnlyChownFails(o: Calls, m: Tree, c: nat, archive: seq<Entry>)
    requires Safe(archive)
    requires var e := c + |archive|; o(e).Error? && forall n: nat :: n >= c && n != e ==> o(n).Fine?
    ensures ExtractEnd(o, c, archive) == (Ok, c + |archive|)
    ensures ExchangeEnd(o, m, false, c, archive) == End(RolledBack, true)
  {
    FineExtract(o, c, archive);
  }

  lemma NewLeft(o: Calls, m: Tree, c: nat, archive: seq<Entry>, u: Tree)
    requires Ends(o, (m, c), archive, u, RolledBack) && ExtractEnd(o, c, archive).0.Ok? && Bak(PAYLOAD[0]) !in m
    ensures HoldsArchive(archive, u, PAYLOAD[0])
  {
    assert DirEnds(m, archive, ExtractEnd(o, c, archive).1 - c, true, u, RolledBack, PAYLOAD[0]);
  }

  /** A tree without `bin`, a release that extracts, and a chown that fails: reported as rolled
      back to the prior agent, with the new release's `bin` in place. */
  lemma RollbackLeavesNew(o: Calls, t: Tree, up: bool, archive: seq<Entry>, u: Tree, end: nat)
    requires PAYLOAD[0] !in t && Bak(PAYLOAD[0]) !in t && PAYLOAD[1] in t && Bak(PAYLOAD[1]) !in t
    requires Safe(archive) && LeavesSnapshots(archive)
    requires var e := 4 + |archive|; o(e).Error? && forall n: nat :: n != e ==> o(n).Fine?
    ensures Ahead(o, t, up, 0, archive) == End(RolledBack, true)
    ensures PayloadByCalls(o, t, 1, archive, RolledBack, u, end) ==> HoldsArchive(archive, u, PAYLOAD[0])
  {
    CleanStart(o, t, 0);
    SnapSecondOnly(o, t, 1);
    var m := SnappedAt(o, t, 1).0;
    OnlyChownFails(o, m, 4, archive);
    if PayloadByCalls(o, t, 1, archive, RolledBack, u, end) {
      NewLeft(o, m, 4, archive, u);
    }
  }
}
