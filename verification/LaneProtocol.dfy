/** The ephemeral lane protocol: lane processes that mint one registration per job, a
    `reconcile --reap-ephemeral` pass, and GitHub, interleaved one call at a time.
    A lane owns a one-id ledger file; 0 stands for an absent or empty ledger. */
module LaneProtocol {
  import opened Text
  import opened Options

  type Id = int
  type Slot = string

  /** What a minted runner name says, and whether this host minted it. The reaper can
      read the slot off the name; it cannot tell whose it is. */
  datatype Name = Name(slot: Slot, ours: bool)
  datatype Status = Status(online: bool, busy: bool)

  /** GitHub's live registrations, and the names of all ids it ever handed out. */
  datatype World = World(gh: map<Id, Status>, names: map<Id, Name>)

  /** Where a lane process stands: which call it makes next. */
  datatype Phase =
    | Stopped
    | Entered                           // next: read the ledger
    | Reaping(stale: Id)                // next: delete the leftover registration
    | Clearing(stale: Id, refused: bool)  // next: clear the ledger
    | Setup                             // next: mint
    | Minted(cur: Id)                   // next: truncate the ledger file
    | Truncated(cur: Id)                // next: write the id
    | Unrecorded(cur: Id)               // next: delete the id that could not be recorded
    | Working(cur: Id)                  // the job runs; next: look the registration up
    | StillThere(cur: Id)               // next: delete the finished registration
    | Gone(cur: Id)                     // next: clear the ledger
    | Leaving(cur: Id)                  // next: return
    | Failed                            // left before minting; next: return
  {
    predicate Live() {
      Minted? || Truncated? || Unrecorded? || Working? || StillThere? || Gone? || Leaving?
    }
    /** Minted, and not yet durably recorded. */
    predicate Window() {
      Minted? || Truncated? || Unrecorded?
    }
  }

  /** `dirty` remembers that the ledger still held an id when this cycle minted: the
      start-of-cycle read failed, so that nothing was reaped, or the clear did. */
  datatype Lane = Lane(phase: Phase, ledger: Id, dirty: bool)

  datatype Reply = Accepted | NotFound | Refused(removed: bool)
  datatype Seen = Missing | Present | Unclear

  /** The calls of one cycle, each with what came back. */
  datatype Act =
    | Start
    | ReadLedger(readable: bool)
    | DeleteStale(reply: Reply)
    | ClearStale(ok: bool)
    | SetupFails
    | Mint(id: Id)
    | MintFails
    | MintLost(id: Id)                  // registered, but the answer never arrived
    | Truncate
    | Write
    | RecordFails(written: bool)
    | Compensate(reply: Reply)
    | LookUp(seen: Seen)
    | DeleteDone(reply: Reply)
    | ClearDone(ok: bool)
    | Return
    | Crash

  function Without(gh: map<Id, Status>, id: Id): map<Id, Status> {
    gh - {id}
  }

  /** A DELETE can only be accepted for a live id and only answer 404 for a dead one; an
      error says nothing about whether the id was removed. */
  predicate Possible(w: World, id: Id, reply: Reply) {
    match reply
    case Accepted => id in w.gh
    case NotFound => id !in w.gh
    case Refused(_) => true
  }

  function Deleted(w: World, id: Id, reply: Reply): World {
    if reply.Accepted? || reply == Refused(true) then w.(gh := Without(w.gh, id)) else w
  }

  predicate Fresh(w: World, id: Id) {
    0 < id <= MAX_INT && id !in w.names
  }

  function Registered(w: World, id: Id, name: Name, status: Status): World {
    World(w.gh[id := status], w.names[id := name])
  }

  const OFFLINE := Status(false, false)

  /** One call of RunCycle for the lane of `slot`. */
  function CycleStep(w: World, l: Lane, slot: Slot, a: Act): Option<(World, Lane)> {
    match (l.phase, a)
    case (Stopped, Start) => Some((w, l.(phase := Entered)))
    case (Stopped, _) => None
    case (_, Crash) => Some((w, l.(phase := Stopped)))
    case (Entered, ReadLedger(readable)) =>
      Some((w, l.(phase := if readable && l.ledger != 0 then Reaping(l.ledger) else Setup)))
    case (Reaping(stale), DeleteStale(reply)) =>
      if Possible(w, stale, reply)
      then Some((Deleted(w, stale, reply), l.(phase := Clearing(stale, reply.Refused?)))) else None
    case (Clearing(_, _), ClearStale(ok)) =>
      Some((w, l.(phase := Setup, ledger := if ok then 0 else l.ledger)))
    case (Setup, SetupFails) => Some((w, l.(phase := Failed)))
    case (Setup, MintFails) => Some((w, l.(phase := Failed)))
    case (Setup, MintLost(id)) =>
      if Fresh(w, id)
      then Some((Registered(w, id, Name(slot, true), OFFLINE), l.(phase := Failed))) else None
    case (Setup, Mint(id)) =>
      if Fresh(w, id)
      then Some((Registered(w, id, Name(slot, true), OFFLINE),
                 Lane(Minted(id), l.ledger, l.ledger != 0))) else None
    case (Minted(cur), Truncate) => Some((w, l.(phase := Truncated(cur), ledger := 0)))
    case (Minted(cur), RecordFails(written)) =>
      if written then None else Some((w, l.(phase := Unrecorded(cur))))
    case (Truncated(cur), Write) => Some((w, l.(phase := Working(cur), ledger := cur)))
    case (Truncated(cur), RecordFails(written)) =>
      Some((w, l.(phase := Unrecorded(cur), ledger := if written then cur else 0)))
    case (Unrecorded(cur), Compensate(reply)) =>
      if Possible(w, cur, reply)
      then Some((Deleted(w, cur, reply), l.(phase := Leaving(cur)))) else None
    case (Working(cur), LookUp(seen)) =>
      if seen.Missing? && cur !in w.gh then Some((w, l.(phase := Gone(cur))))
      else if seen.Present? && cur in w.gh then Some((w, l.(phase := StillThere(cur))))
      else if seen.Unclear? then Some((w, l.(phase := Leaving(cur)))) else None
    case (StillThere(cur), DeleteDone(reply)) =>
      if Possible(w, cur, reply)
      then Some((Deleted(w, cur, reply),
                 l.(phase := if reply.Refused? then Leaving(cur) else Gone(cur)))) else None
    case (Gone(cur), ClearDone(ok)) =>
      Some((w, l.(phase := Leaving(cur), ledger := if ok then 0 else l.ledger)))
    case (Leaving(_), Return) => Some((w, l.(phase := Stopped)))
    case (Failed, Return) => Some((w, l.(phase := Stopped)))
    case _ => None
  }

  // ---------------------------------------------------------------- the whole system

  /** A reap pass: list first, then, row by row, inspect the unit, read the ledger, delete. */
  datatype Reaper =
    | Idle
    | Listing(rows: set<Id>)
    | Judging(rows: set<Id>)
    | Checking(rows: set<Id>, id: Id)
    | Condemned(rows: set<Id>, id: Id)

  datatype State = State(w: World, lanes: map<Slot, Lane>, reaper: Reaper)

  datatype Event =
    | Cycle(slot: Slot, act: Act)
    | Change(id: Id, status: Status)    // an agent connects, takes a job, disconnects
    | Vanish(id: Id)                    // a finished job deregisters itself
    | Foreign(id: Id, slot: Slot, status: Status)  // another host mints
    | StartPass
    | ListRow(id: Id)
    | EndList
    | Inspect(id: Id)
    | ReadPending(readable: bool)
    | Delete(reply: Reply)
    | EndPass

  predicate ReaperEvent(e: Event) {
    e.StartPass? || e.ListRow? || e.EndList? || e.Inspect? || e.ReadPending? || e.Delete? || e.EndPass?
  }

  function ReapStep(s: State, e: Event): Option<State>
    requires ReaperEvent(e)
  {
    match (s.reaper, e)
    case (Idle, StartPass) => Some(s.(reaper := Listing({})))
    case (Listing(rows), ListRow(id)) =>
      if id in s.w.gh && id in s.w.names && !s.w.gh[id].online && !s.w.gh[id].busy
      then Some(s.(reaper := Listing(rows + {id}))) else None
    case (Listing(rows), EndList) => Some(s.(reaper := Judging(rows)))
    case (Judging(rows), Inspect(id)) =>
      if id !in rows || id !in s.w.names then None
      else
        var slot := s.w.names[id].slot;
        Some(s.(reaper :=
          if slot !in s.lanes then Judging(rows - {id})
          else if s.lanes[slot].phase.Stopped? then Condemned(rows - {id}, id)
          else Checking(rows - {id}, id)))
    case (Checking(rows, id), ReadPending(readable)) =>
      if id !in s.w.names || s.w.names[id].slot !in s.lanes then None
      else
        var pending := if readable then s.lanes[s.w.names[id].slot].ledger else 0;
        Some(s.(reaper := if pending == 0 || pending == id then Judging(rows) else Condemned(rows, id)))
    case (Condemned(rows, id), Delete(reply)) =>
      if Possible(s.w, id, reply)
      then Some(s.(w := Deleted(s.w, id, reply), reaper := Judging(rows))) else None
    case (Judging(rows), EndPass) => if rows == {} then Some(s.(reaper := Idle)) else None
    case _ => None
  }

  function Step(s: State, e: Event): Option<State> {
    match e
    case Cycle(slot, a) =>
      if slot !in s.lanes then None
      else (match CycleStep(s.w, s.lanes[slot], slot, a)
            case None => None
            case Some((w, l)) => Some(s.(w := w, lanes := s.lanes[slot := l])))
    case Change(id, status) =>
      if id in s.w.gh then Some(s.(w := s.w.(gh := s.w.gh[id := status]))) else None
    case Vanish(id) => Some(s.(w := s.w.(gh := Without(s.w.gh, id))))
    case Foreign(id, slot, status) =>
      if Fresh(s.w, id) then Some(s.(w := Registered(s.w, id, Name(slot, false), status))) else None
    case _ => ReapStep(s, e)
  }

  function Run(s: State, es: seq<Event>): Option<State>
    decreases es
  {
    if es == [] then Some(s)
    else match Step(s, es[0])
         case None => None
         case Some(t) => Run(t, es[1..])
  }

  lemma {:induction false} RunAppend(s: State, es: seq<Event>, e: Event)
    requires Run(s, es).Some?
    ensures Run(s, es + [e]) == Step(Run(s, es).value, e)
    decreases es
  {
    if es == [] {
      assert es + [e] == [e];
      assert Run(s, [e]) == Step(s, e) by {
        if Step(s, e).Some? { assert Run(Step(s, e).value, [e][1..]) == Step(s, e); }
      }
    } else {
      RunAppend(Step(s, es[0]).value, es[1..], e);
      assert (es + [e])[1..] == es[1..] + [e];
    }
  }

  // ---------------------------------------------------------------- invariants

  predicate WorldInv(w: World) {
    w.gh.Keys <= w.names.Keys && forall id :: id in w.names ==> 0 < id <= MAX_INT
  }

  predicate LaneInv(w: World, l: Lane, slot: Slot) {
    && (l.ledger != 0 ==> l.ledger in w.names && w.names[l.ledger] == Name(slot, true))
    && (l.phase.Live() ==> l.phase.cur in w.names && w.names[l.phase.cur] == Name(slot, true))
    && (l.phase.Live() && !l.dirty ==> l.ledger == 0 || l.ledger == l.phase.cur)
    && (l.phase.Reaping? ==> l.ledger == l.phase.stale != 0)
    && (l.phase.Clearing? ==> l.ledger == l.phase.stale != 0 && (!l.phase.refused ==> l.phase.stale !in w.gh))
    && (l.phase.Minted? ==> l.ledger != l.phase.cur)
    && (l.phase.Truncated? ==> l.ledger == 0)
    && (l.phase.Working? || l.phase.StillThere? || l.phase.Gone? ==> l.ledger == l.phase.cur)
    && (l.phase.Gone? ==> l.phase.cur !in w.gh)
  }

  /** `id` is the registration of a running cycle that minted over an empty ledger. */
  predicate Protected(s: State, slot: Slot, id: Id) {
    slot in s.lanes && s.lanes[slot].phase.Live() && !s.lanes[slot].dirty && s.lanes[slot].phase.cur == id
  }

  predicate ReaperInv(s: State) {
    match s.reaper
    case Idle => true
    case Listing(rows) => rows <= s.w.names.Keys
    case Judging(rows) => rows <= s.w.names.Keys
    case Checking(rows, id) => rows <= s.w.names.Keys && id in s.w.names && s.w.names[id].slot in s.lanes
    case Condemned(rows, id) =>
      rows <= s.w.names.Keys && id in s.w.names && s.w.names[id].slot in s.lanes &&
      !Protected(s, s.w.names[id].slot, id)
  }

  predicate Inv(s: State) {
    WorldInv(s.w) && (forall slot :: slot in s.lanes ==> LaneInv(s.w, s.lanes[slot], slot)) && ReaperInv(s)
  }

  /** What any step may do to GitHub: ids are never renamed, and only fresh ids appear. */
  predicate Evolves(w: World, v: World) {
    && (forall id :: id in w.names ==> id in v.names && v.names[id] == w.names[id])
    && (forall id :: id in v.gh && id in w.names ==> id in w.gh)
  }

  lemma Frame(w: World, v: World, l: Lane, slot: Slot)
    requires LaneInv(w, l, slot) && Evolves(w, v)
    ensures LaneInv(v, l, slot)
  {}

  lemma CycleKeeps(w: World, l: Lane, slot: Slot, a: Act)
    requires WorldInv(w) && LaneInv(w, l, slot) && CycleStep(w, l, slot, a).Some?
    ensures var (v, m) := CycleStep(w, l, slot, a).value;
      && WorldInv(v) && Evolves(w, v) && LaneInv(v, m, slot)
      && (m.phase.Live() && m.phase.cur in w.names ==>
            l.phase.Live() && m.phase.cur == l.phase.cur && m.dirty == l.dirty)
  {
    CycleEvolves(w, l, slot, a);
    CycleLaneKeeps(w, l, slot, a);
    CycleDirtyKeeps(w, l, slot, a);
  }

  lemma CycleEvolves(w: World, l: Lane, slot: Slot, a: Act)
    requires WorldInv(w) && LaneInv(w, l, slot) && CycleStep(w, l, slot, a).Some?
    ensures var v := CycleStep(w, l, slot, a).value.0; WorldInv(v) && Evolves(w, v)
  {}

  lemma CycleLaneKeeps(w: World, l: Lane, slot: Slot, a: Act)
    requires WorldInv(w) && LaneInv(w, l, slot) && CycleStep(w, l, slot, a).Some?
    ensures var (v, m) := CycleStep(w, l, slot, a).value; LaneInv(v, m, slot)
  {}

  /** A cycle with an id that was known before is the cycle that was running. */
  lemma CycleDirtyKeeps(w: World, l: Lane, slot: Slot, a: Act)
    requires WorldInv(w) && LaneInv(w, l, slot) && CycleStep(w, l, slot, a).Some?
    ensures var m := CycleStep(w, l, slot, a).value.1;
      m.phase.Live() && m.phase.cur in w.names ==>
        l.phase.Live() && m.phase.cur == l.phase.cur && m.dirty == l.dirty
  {}

  lemma StepKeeps(s: State, e: Event)
    requires Inv(s) && Step(s, e).Some?
    ensures Inv(Step(s, e).value) && Evolves(s.w, Step(s, e).value.w)
    ensures Step(s, e).value.lanes.Keys == s.lanes.Keys
  {
    match e
    case Cycle(slot, a) => CycleEventKeeps(s, slot, a);
    case Change(_, _) => LanesFrame(s, Step(s, e).value);
    case Vanish(_) => LanesFrame(s, Step(s, e).value);
    case Foreign(_, _, _) => LanesFrame(s, Step(s, e).value);
    case _ => ReapStepKeeps(s, e);
  }

  lemma CycleEventKeeps(s: State, slot: Slot, a: Act)
    requires Inv(s) && Step(s, Cycle(slot, a)).Some?
    ensures var t := Step(s, Cycle(slot, a)).value; Inv(t) && Evolves(s.w, t.w) && t.lanes.Keys == s.lanes.Keys
  {
    var t := Step(s, Cycle(slot, a)).value;
    CycleKeeps(s.w, s.lanes[slot], slot, a);
    forall other | other in t.lanes && other != slot ensures LaneInv(t.w, t.lanes[other], other) {
      Frame(s.w, t.w, s.lanes[other], other);
    }
  }

  lemma ReapStepKeeps(s: State, e: Event)
    requires Inv(s) && ReaperEvent(e) && ReapStep(s, e).Some?
    ensures var t := ReapStep(s, e).value; Inv(t) && Evolves(s.w, t.w) && t.lanes == s.lanes
  {
    LanesFrame(s, ReapStep(s, e).value);
  }

  lemma LanesFrame(s: State, t: State)
    requires forall slot :: slot in s.lanes ==> LaneInv(s.w, s.lanes[slot], slot)
    requires t.lanes == s.lanes && Evolves(s.w, t.w)
    ensures forall slot :: slot in t.lanes ==> LaneInv(t.w, t.lanes[slot], slot)
  {
    forall slot | slot in t.lanes ensures LaneInv(t.w, t.lanes[slot], slot) {
      Frame(s.w, t.w, s.lanes[slot], slot);
    }
  }

  lemma {:induction false} RunKeeps(s: State, es: seq<Event>)
    requires Inv(s) && Run(s, es).Some?
    ensures Inv(Run(s, es).value) && Evolves(s.w, Run(s, es).value.w)
    ensures Run(s, es).value.lanes.Keys == s.lanes.Keys
    decreases es
  {
    if es == [] {
    } else {
      StepKeeps(s, es[0]);
      RunKeeps(Step(s, es[0]).value, es[1..]);
    }
  }

  /** Safety over every run: whenever the reaper is about to delete, its target is no
      lane's registration between mint and return, for every cycle that minted over an
      empty ledger. */
  lemma ReaperSparesRunningCycles(s: State, es: seq<Event>, slot: Slot, id: Id)
    requires Inv(s) && Run(s, es).Some?
    requires Protected(Run(s, es).value, slot, id)
    ensures var t := Run(s, es).value; t.reaper.Condemned? ==> t.reaper.id != id
  {
    RunKeeps(s, es);
  }

  // ---------------------------------------------------------------- what a reap pass removes

  /** The rows a pass running alone deletes: this host has the slot's unit, and either the
      lane is down or its ledger holds an id that is not the row's. */
  predicate Doomed(s: State, id: Id) {
    id in s.w.names && s.w.names[id].slot in s.lanes &&
    var l := s.lanes[s.w.names[id].slot];
    l.phase.Stopped? || (l.ledger != 0 && l.ledger != id)
  }

  function Waiting(r: Reaper): set<Id> {
    match r
    case Idle => {}
    case Listing(rows) => rows
    case Judging(rows) => rows
    case Checking(rows, id) => rows + {id}
    case Condemned(rows, id) => rows + {id}
  }

  lemma ProtectedNotDoomed(s: State, slot: Slot, id: Id)
    requires Inv(s) && Protected(s, slot, id)
    ensures !Doomed(s, id)
  {
    assert LaneInv(s.w, s.lanes[slot], slot);
  }

  /** The i-th event lists the registration, and it was live, offline and idle then. */
  predicate SawIdle(s: State, es: seq<Event>, i: nat, id: Id) {
    i < |es| && es[i] == ListRow(id) && Run(s, es[..i]).Some? &&
    var t := Run(s, es[..i]).value; id in t.w.gh && !t.w.gh[id].online && !t.w.gh[id].busy
  }

  lemma {:induction false} RunFront(s: State, es: seq<Event>, e: Event)
    requires Run(s, es + [e]).Some?
    ensures Run(s, es).Some?
    decreases es
  {
    if es == [] {
    } else {
      assert (es + [e])[1..] == es[1..] + [e];
      RunFront(Step(s, es[0]).value, es[1..], e);
    }
  }

  lemma {:induction false} WaitingWasIdle(s: State, es: seq<Event>, id: Id)
    requires s.reaper.Idle? && Run(s, es).Some? && id in Waiting(Run(s, es).value.reaper)
    ensures exists i: nat :: SawIdle(s, es, i, id)
    decreases |es|
  {
    if es == [] {
    } else {
      var n := |es| - 1;
      var front, e := es[..n], es[n];
      assert es == front + [e];
      RunFront(s, front, e);
      RunAppend(s, front, e);
      var t := Run(s, front).value;
      if id in Waiting(t.reaper) {
        WaitingWasIdle(s, front, id);
        var i: nat :| SawIdle(s, front, i, id);
        assert es[..i] == front[..i] && SawIdle(s, es, i, id);
      } else {
        NewlyWaiting(t, e, id);
        assert SawIdle(s, es, n, id);
      }
    }
  }

  lemma NewlyWaiting(s: State, e: Event, id: Id)
    requires Step(s, e).Some? && id in Waiting(Step(s, e).value.reaper) && id !in Waiting(s.reaper)
    ensures e == ListRow(id) && id in s.w.gh && !s.w.gh[id].online && !s.w.gh[id].busy
  {}

  /** Over every run: what the reaper is about to delete it has listed, and when it did the
      registration was live, offline and idle. */
  lemma CondemnedWasIdle(s: State, es: seq<Event>)
    requires s.reaper.Idle? && Run(s, es).Some? && Run(s, es).value.reaper.Condemned?
    ensures exists i: nat :: SawIdle(s, es, i, Run(s, es).value.reaper.id)
  {
    WaitingWasIdle(s, es, Run(s, es).value.reaper.id);
  }

  /** A pass with nothing running beside it, every read and delete working. */
  predicate Alone(es: seq<Event>) {
    forall e :: e in es ==> ReaperEvent(e) && e != ReadPending(false) && !(e.Delete? && e.reply.Refused?)
  }

  function Listed(es: seq<Event>): set<Id> {
    if es == [] then {} else (if es[0].ListRow? then {es[0].id} else {}) + Listed(es[1..])
  }

  predicate Steady(s: State) {
    match s.reaper
    case Checking(_, id) =>
      id in s.w.names && s.w.names[id].slot in s.lanes && !s.lanes[s.w.names[id].slot].phase.Stopped?
    case Condemned(_, id) => Doomed(s, id)
    case _ => true
  }

  /** What will be left on GitHub once the rows in `rows` have been dealt with. */
  function Survivors(s: State, rows: set<Id>): map<Id, Status> {
    map id | id in s.w.gh && !(id in rows && Doomed(s, id)) :: s.w.gh[id]
  }

  lemma AloneStep(s: State, e: Event)
    requires Steady(s) && Alone([e]) && Step(s, e).Some?
    ensures var t := Step(s, e).value;
      && t.lanes == s.lanes && t.w.names == s.w.names && Steady(t)
      && Survivors(t, Waiting(t.reaper)) == Survivors(s, Waiting(s.reaper) + Listed([e]))
  {
    assert e in [e];
    assert Listed([e]) == if e.ListRow? then {e.id} else {};
  }

  lemma {:induction false} AloneRun(s: State, es: seq<Event>, more: set<Id>)
    requires Steady(s) && Alone(es) && Run(s, es).Some?
    ensures var t := Run(s, es).value;
      && t.lanes == s.lanes && t.w.names == s.w.names
      && Survivors(t, Waiting(t.reaper) + more) == Survivors(s, Waiting(s.reaper) + Listed(es) + more)
    decreases es
  {
    if es == [] {
      assert Waiting(s.reaper) + Listed(es) + more == Waiting(s.reaper) + more;
    } else {
      var e, rest := es[0], es[1..];
      assert e in es && forall x :: x in rest ==> x in es;
      assert Alone([e]) && Alone(rest);
      AloneStep(s, e);
      var t := Step(s, e).value;
      AloneRun(t, rest, more);
      var u := Run(t, rest).value;
      SurvivorsGrow(s, t, Waiting(t.reaper), Waiting(s.reaper) + Listed([e]), Listed(rest) + more);
      assert Listed(es) == Listed([e]) + Listed(rest);
      assert Waiting(t.reaper) + Listed(rest) + more == Waiting(t.reaper) + (Listed(rest) + more);
      assert Waiting(s.reaper) + Listed(es) + more == Waiting(s.reaper) + Listed([e]) + (Listed(rest) + more);
    }
  }

  lemma SurvivorsGrow(s: State, t: State, b: set<Id>, a: set<Id>, more: set<Id>)
    requires t.lanes == s.lanes && t.w.names == s.w.names
    requires Survivors(t, b) == Survivors(s, a)
    ensures Survivors(t, b + more) == Survivors(s, a + more)
  {
    forall id ensures id in Survivors(t, b + more) <==> id in Survivors(s, a + more) {
      assert id in Survivors(t, b) <==> id in Survivors(s, a);
    }
    forall id | id in Survivors(t, b + more) ensures Survivors(t, b + more)[id] == Survivors(s, a + more)[id] {
      assert Survivors(t, b)[id] == Survivors(s, a)[id];
    }
  }

  /** A whole pass, run alone: exactly the listed rows that are doomed are gone, and
      nothing else changed. */
  lemma ReapPassExactly(s: State, es: seq<Event>)
    requires s.reaper.Idle? && Alone(es) && Run(s, es).Some? && Run(s, es).value.reaper.Idle?
    ensures Run(s, es).value.w.gh == Survivors(s, Listed(es))
    ensures Run(s, es).value.lanes == s.lanes
  {
    AloneRun(s, es, {});
    var t := Run(s, es).value;
    assert Survivors(t, Waiting(t.reaper) + {}) == t.w.gh;
    assert Waiting(s.reaper) + Listed(es) + {} == Listed(es);
  }

  /** Over a lane that is down, a pass removes every listed registration of its slot. */
  lemma ReapPassSweepsIdleLane(s: State, es: seq<Event>, id: Id)
    requires s.reaper.Idle? && Alone(es) && Run(s, es).Some? && Run(s, es).value.reaper.Idle?
    requires id in Listed(es) && id in s.w.names && s.w.names[id].slot in s.lanes
    requires s.lanes[s.w.names[id].slot].phase.Stopped?
    ensures id !in Run(s, es).value.w.gh
  {
    ReapPassExactly(s, es);
  }

  /** The exact limit of the reaper's safety. A pass that lists a running cycle's own
      registration deletes it if and only if the ledger still holds some other id, which
      takes a start-of-cycle read or clear that failed. */
  lemma ReapKillsRunningCycleIff(s: State, es: seq<Event>, slot: Slot)
    requires Inv(s) && slot in s.lanes && s.lanes[slot].phase.Live()
    requires s.reaper.Idle? && Alone(es) && Run(s, es).Some? && Run(s, es).value.reaper.Idle?
    requires s.lanes[slot].phase.cur in s.w.gh && s.lanes[slot].phase.cur in Listed(es)
    ensures var l := s.lanes[slot];
      && (l.phase.cur !in Run(s, es).value.w.gh <==> l.ledger != 0 && l.ledger != l.phase.cur)
      && (l.phase.cur !in Run(s, es).value.w.gh ==> l.dirty)
  {
    ReapPassExactly(s, es);
    assert LaneInv(s.w, s.lanes[slot], slot);
  }

  /** A listed registration minted by another host goes if and only if this host has a
      lane with the same slot id that is down or busy with another id: the name does not
      say which host minted it. */
  lemma ReapTakesForeignIff(s: State, es: seq<Event>, id: Id)
    requires Inv(s) && s.reaper.Idle? && Alone(es) && Run(s, es).Some? && Run(s, es).value.reaper.Idle?
    requires id in s.w.gh && !s.w.names[id].ours && id in Listed(es)
    ensures id !in Run(s, es).value.w.gh <==>
              (var slot := s.w.names[id].slot;
               slot in s.lanes && (s.lanes[slot].phase.Stopped? || s.lanes[slot].ledger != 0))
  {
    ReapPassExactly(s, es);
    var slot := s.w.names[id].slot;
    if slot in s.lanes {
      assert LaneInv(s.w, s.lanes[slot], slot);
    }
  }

  function PassOverIdle(id: Id): seq<Event> {
    [StartPass, ListRow(id), EndList, Inspect(id), Delete(Accepted), EndPass]
  }

  /** The input: another host mints for slot 1, and a pass on this host, whose lane 1 is down,
      takes that registration. */
  lemma ForeignIsTaken(s: State, id: Id, es: seq<Event>)
    requires s == State(World(map[], map[]), map["1" := Lane(Stopped, 0, false)], Idle) && 0 < id <= MAX_INT
    requires es == [Foreign(id, "1", OFFLINE)] + PassOverIdle(id)
    ensures Inv(s) && Run(s, es).Some?
    ensures var t := Run(s, es).value;
      id in t.w.names && !t.w.names[id].ours && id !in t.w.gh && t.lanes == s.lanes
  {
    var none: set<Id> := {};
    assert none + {id} == {id} && {id} - {id} == none;
    var w := World(map[id := OFFLINE], map[id := Name("1", false)]);
    var minted, final := s.(w := w), s.(w := World(map[], w.names));
    assert Without(w.gh, id) == map[];
    var states := [s, minted, minted.(reaper := Listing({})), minted.(reaper := Listing({id})),
                   minted.(reaper := Judging({id})), minted.(reaper := Condemned({}, id)),
                   final.(reaper := Judging({})), final];
    forall i | 0 <= i < |es| ensures Step(states[i], es[i]) == Some(states[i + 1]) {}
    Walk(states, es);
  }

  // ---------------------------------------------------------------- accounting

  function Ours(w: World, slot: Slot): set<Id> {
    set id | id in w.gh && id in w.names && w.names[id] == Name(slot, true)
  }

  /** The ids a lane still answers for: the one in its ledger and, between mint and
      record, the one it just minted. */
  function Tracked(l: Lane): set<Id> {
    (if l.ledger != 0 then {l.ledger} else {}) + (if l.phase.Window() then {l.phase.cur} else {})
  }

  /** This host's live registrations for the slot that nothing will come back for. */
  function Leaked(w: World, l: Lane, slot: Slot): set<Id> {
    Ours(w, slot) - Tracked(l)
  }

  /** Every way a call can leak an id, and the id. */
  function Leaks(w: World, l: Lane, a: Act): set<Id> {
    match (l.phase, a)
    case (Clearing(stale, refused), ClearStale(ok)) =>    // cleared although the delete failed
      if ok && refused && stale in w.gh then {stale} else {}
    case (Setup, MintLost(id)) => {id}
    case (Minted(_), Truncate) =>                         // never read, or neither deleted nor cleared; now overwritten
      if l.ledger in w.gh then {l.ledger} else {}
    case (Unrecorded(cur), Compensate(reply)) =>          // not recorded, and not deleted either
      if reply == Refused(false) && cur in w.gh && l.ledger != cur then {cur} else {}
    case (_, Crash) =>                                    // between mint and record
      if l.phase.Window() && l.phase.cur in w.gh && l.ledger != l.phase.cur then {l.phase.cur} else {}
    case _ => {}
  }

  lemma IdLeaks(w: World, l: Lane, slot: Slot, a: Act, id: Id)
    requires WorldInv(w) && LaneInv(w, l, slot) && CycleStep(w, l, slot, a).Some?
    ensures var (v, m) := CycleStep(w, l, slot, a).value;
      id in Leaked(v, m, slot) <==> id in v.gh && (id in Leaked(w, l, slot) || id in Leaks(w, l, a))
  {
    if l.ledger in w.gh { assert w.names[l.ledger] == Name(slot, true); }
  }

  /** Each call leaks exactly what `Leaks` says, and an id once leaked stays leaked until
      GitHub drops it. */
  lemma CycleLeaksExactly(w: World, l: Lane, slot: Slot, a: Act)
    requires WorldInv(w) && LaneInv(w, l, slot) && CycleStep(w, l, slot, a).Some?
    ensures var (v, m) := CycleStep(w, l, slot, a).value;
      Leaked(v, m, slot) == (Leaked(w, l, slot) + Leaks(w, l, a)) * v.gh.Keys
  {
    var (v, m) := CycleStep(w, l, slot, a).value;
    forall id ensures id in Leaked(v, m, slot) <==> id in (Leaked(w, l, slot) + Leaks(w, l, a)) * v.gh.Keys {
      IdLeaks(w, l, slot, a, id);
    }
  }

  /** The cause that is easiest to miss: a ledger that cannot be read over a live id, minted
      over, and truncated. */
  lemma UnreadLedgerLeaks(w: World, slot: Slot, stale: Id, id: Id)
    requires stale in w.gh && stale != 0 && Fresh(w, id)
    ensures var read := CycleStep(w, Lane(Entered, stale, false), slot, ReadLedger(false));
      read.Some? && var minted := CycleStep(read.value.0, read.value.1, slot, Mint(id));
      minted.Some? && Leaks(minted.value.0, minted.value.1, Truncate) == {stale}
  {}

  /** The decision about a finished job's registration never leaks, whatever GitHub answers. */
  lemma EndOfCycleNeverLeaks(w: World, l: Lane, slot: Slot, a: Act)
    requires WorldInv(w) && LaneInv(w, l, slot) && CycleStep(w, l, slot, a).Some?
    requires l.phase.Working? || l.phase.StillThere? || l.phase.Gone? || l.phase.Leaving?
    ensures var (v, m) := CycleStep(w, l, slot, a).value;
      Leaked(v, m, slot) <= Leaked(w, l, slot)
  {
    CycleLeaksExactly(w, l, slot, a);
  }

  function LeaksOf(s: State, e: Event, slot: Slot): set<Id> {
    if e.Cycle? && e.slot == slot && slot in s.lanes then Leaks(s.w, s.lanes[slot], e.act) else {}
  }

  function RunLeaks(s: State, es: seq<Event>, slot: Slot): set<Id>
    decreases es
  {
    if es == [] || Step(s, es[0]).None? then {}
    else LeaksOf(s, es[0], slot) + RunLeaks(Step(s, es[0]).value, es[1..], slot)
  }

  function LeakedBy(s: State, slot: Slot): set<Id>
    requires slot in s.lanes
  {
    Leaked(s.w, s.lanes[slot], slot)
  }

  lemma StepLeaksExactly(s: State, e: Event, slot: Slot)
    requires Inv(s) && Step(s, e).Some? && slot in s.lanes
    ensures slot in Step(s, e).value.lanes
    ensures var t := Step(s, e).value;
      LeakedBy(t, slot) == (LeakedBy(s, slot) + LeaksOf(s, e, slot)) * t.w.gh.Keys
    ensures LeaksOf(s, e, slot) <= Step(s, e).value.w.names.Keys
  {
    if e.Cycle? {
      CycleEventLeaks(s, e.slot, e.act, slot);
    } else {
      StepKeeps(s, e);
      OtherEventLeaksNothing(s, e, slot);
    }
  }

  lemma CycleEventLeaks(s: State, lane: Slot, a: Act, slot: Slot)
    requires Inv(s) && Step(s, Cycle(lane, a)).Some? && slot in s.lanes
    ensures slot in Step(s, Cycle(lane, a)).value.lanes
    ensures var t := Step(s, Cycle(lane, a)).value;
      && LeakedBy(t, slot) == (LeakedBy(s, slot) + LeaksOf(s, Cycle(lane, a), slot)) * t.w.gh.Keys
      && LeaksOf(s, Cycle(lane, a), slot) <= t.w.names.Keys
  {
    assert LaneInv(s.w, s.lanes[slot], slot) && LaneInv(s.w, s.lanes[lane], lane);
    CycleKeeps(s.w, s.lanes[lane], lane, a);
    if lane == slot {
      CycleLeaksExactly(s.w, s.lanes[slot], slot, a);
    } else {
      OthersUntouched(s.w, s.lanes[lane], lane, a, slot);
    }
  }

  /** Only the lanes leak: whatever else happens, GitHub at most drops what is leaked. */
  lemma OtherEventLeaksNothing(s: State, e: Event, slot: Slot)
    requires Inv(s) && !e.Cycle? && Step(s, e).Some? && slot in s.lanes && Step(s, e).value.lanes == s.lanes
    requires Evolves(s.w, Step(s, e).value.w)
    ensures LeakedBy(Step(s, e).value, slot) == LeakedBy(s, slot) * Step(s, e).value.w.gh.Keys
  {}

  lemma OthersUntouched(w: World, l: Lane, slot: Slot, a: Act, other: Slot)
    requires WorldInv(w) && LaneInv(w, l, slot) && CycleStep(w, l, slot, a).Some? && other != slot
    ensures Ours(CycleStep(w, l, slot, a).value.0, other) == Ours(w, other)
  {}

  /** Conservation over every run and every interleaving: what is leaked at the end is
      what was leaked before plus what the five leaking calls added, less what GitHub has
      dropped since. */
  lemma {:induction false} RunLeaksExactly(s: State, es: seq<Event>, slot: Slot)
    requires Inv(s) && Run(s, es).Some? && slot in s.lanes
    ensures slot in Run(s, es).value.lanes
    ensures var t := Run(s, es).value;
      LeakedBy(t, slot) == (LeakedBy(s, slot) + RunLeaks(s, es, slot)) * t.w.gh.Keys
    decreases es
  {
    if es == [] {
    } else {
      var t := Step(s, es[0]).value;
      StepKeeps(s, es[0]);
      StepLeaksExactly(s, es[0], slot);
      RunLeaksExactly(t, es[1..], slot);
      RunKeeps(t, es[1..]);
      LeaksCompose(s, t, Run(t, es[1..]).value, slot, LeaksOf(s, es[0], slot), RunLeaks(t, es[1..], slot));
    }
  }

  lemma LeaksCompose(s: State, t: State, u: State, slot: Slot, now: set<Id>, later: set<Id>)
    requires slot in s.lanes && slot in t.lanes && slot in u.lanes
    requires WorldInv(s.w) && Evolves(s.w, t.w) && Evolves(t.w, u.w) && now <= t.w.names.Keys
    requires LeakedBy(t, slot) == (LeakedBy(s, slot) + now) * t.w.gh.Keys
    requires LeakedBy(u, slot) == (LeakedBy(t, slot) + later) * u.w.gh.Keys
    ensures LeakedBy(u, slot) == (LeakedBy(s, slot) + (now + later)) * u.w.gh.Keys
  {
    assert LeakedBy(s, slot) <= s.w.names.Keys;
    var before := LeakedBy(s, slot) + now;
    assert forall id :: id in before * u.w.gh.Keys ==> id in t.w.names && id in t.w.gh;
  }

  /** While nothing leaks, a slot has at most the one registration its ledger names,
      except between mint and record. */
  lemma WithoutLeaksOnlyTheLedger(s: State, es: seq<Event>, t: State, slot: Slot)
    requires Inv(s) && Run(s, es) == Some(t) && slot in s.lanes && slot in t.lanes
    requires LeakedBy(s, slot) == {} && RunLeaks(s, es, slot) == {}
    requires !t.lanes[slot].phase.Window()
    ensures Ours(t.w, slot) <= {t.lanes[slot].ledger}
  {
    RunLeaksExactly(s, es, slot);
    OnlyTracked(t.w, t.lanes[slot], slot);
  }

  lemma OnlyTracked(w: World, l: Lane, slot: Slot)
    requires Leaked(w, l, slot) == {} && !l.phase.Window()
    ensures Ours(w, slot) <= {l.ledger}
  {
    assert Ours(w, slot) <= Tracked(l) + Leaked(w, l, slot);
  }

  /** A run spelled out: the states it passes through. */
  ghost predicate Path(states: seq<State>, es: seq<Event>) {
    |states| == |es| + 1 &&
    forall i {:trigger es[i]} :: 0 <= i < |es| ==> Step(states[i], es[i]) == Some(states[i + 1])
  }

  lemma {:induction false} Walk(states: seq<State>, es: seq<Event>)
    requires Path(states, es)
    ensures Run(states[0], es) == Some(states[|es|])
    decreases es
  {
    if es == [] {
    } else {
      assert Step(states[0], es[0]) == Some(states[0 + 1]);
      forall i {:trigger es[1..][i]} | 0 <= i < |es[1..]|
        ensures Step(states[1..][i], es[1..][i]) == Some(states[1..][i + 1])
      {
        assert Step(states[i + 1], es[i + 1]) == Some(states[i + 1 + 1]);
      }
      Walk(states[1..], es[1..]);
    }
  }

  lemma {:induction false} RunConcat(s: State, es: seq<Event>, fs: seq<Event>)
    requires Run(s, es).Some?
    ensures Run(s, es + fs) == Run(Run(s, es).value, fs)
    decreases es
  {
    if es == [] {
      assert es + fs == fs;
    } else {
      RunConcat(Step(s, es[0]).value, es[1..], fs);
      assert (es + fs)[1..] == es[1..] + fs;
    }
  }

  function PassOver(id: Id): seq<Event> {
    [StartPass, ListRow(id), EndList, Inspect(id), ReadPending(true), Delete(Accepted), EndPass]
  }

  /** A pass over an offline registration whose running lane's ledger names another id. */
  lemma PassTakes(s: State, id: Id)
    requires s.reaper.Idle? && id in s.w.gh && s.w.gh[id] == OFFLINE && Doomed(s, id)
    requires !s.lanes[s.w.names[id].slot].phase.Stopped?
    ensures Run(s, PassOver(id)) == Some(s.(w := s.w.(gh := Without(s.w.gh, id))))
  {
    var es := PassOver(id);
    var none: set<Id> := {};
    assert none + {id} == {id} && {id} - {id} == none;
    var final := s.(w := s.w.(gh := Without(s.w.gh, id)));
    var states := [s, s.(reaper := Listing({})), s.(reaper := Listing({id})), s.(reaper := Judging({id})),
          s.(reaper := Checking({}, id)), s.(reaper := Condemned({}, id)), final.(reaper := Judging({})), final];
    forall i | 0 <= i < |es| ensures Step(states[i], es[i]) == Some(states[i + 1]) {}
    Walk(states, es);
  }

  lemma SoloStep(s: State, slot: Slot, l: Lane, a: Act)
    requires s.lanes == map[slot := l] && CycleStep(s.w, l, slot, a).Some?
    ensures var (v, m) := CycleStep(s.w, l, slot, a).value;
      Step(s, Cycle(slot, a)) == Some(State(v, map[slot := m], s.reaper))
  {
    var (v, m) := CycleStep(s.w, l, slot, a).value;
    assert map[slot := l][slot := m] == map[slot := m];
  }

  /** A cycle whose start-of-cycle clear fails: it mints 7 while the ledger still says 5. */
  function DirtyCycle(): seq<Event> {
    [Cycle("1", Start), Cycle("1", ReadLedger(true)), Cycle("1", DeleteStale(NotFound)),
     Cycle("1", ClearStale(false)), Cycle("1", Mint(7))]
  }

  lemma DirtyCycleMints(s: State)
    requires s.w == World(map[], map[5 := Name("1", true)]) && s.lanes == map["1" := Lane(Stopped, 5, false)]
    ensures Run(s, DirtyCycle()) ==
            Some(State(Registered(s.w, 7, Name("1", true), OFFLINE), map["1" := Lane(Minted(7), 5, true)], s.reaper))
  {
    var minted := State(Registered(s.w, 7, Name("1", true), OFFLINE), map["1" := Lane(Minted(7), 5, true)], s.reaper);
    DirtyReap(s);
    SoloStep(At5(s, Clearing(5, false)), "1", Lane(Clearing(5, false), 5, false), ClearStale(false));
    SoloStep(At5(s, Setup), "1", Lane(Setup, 5, false), Mint(7));
    Walk([s, At5(s, Entered), At5(s, Reaping(5)), At5(s, Clearing(5, false)), At5(s, Setup), minted], DirtyCycle());
  }

  function At5(s: State, p: Phase): State {
    s.(lanes := map["1" := Lane(p, 5, false)])
  }

  lemma DirtyReap(s: State)
    requires s.w == World(map[], map[5 := Name("1", true)]) && s.lanes == map["1" := Lane(Stopped, 5, false)]
    ensures Step(s, Cycle("1", Start)) == Some(At5(s, Entered))
    ensures Step(At5(s, Entered), Cycle("1", ReadLedger(true))) == Some(At5(s, Reaping(5)))
    ensures Step(At5(s, Reaping(5)), Cycle("1", DeleteStale(NotFound))) == Some(At5(s, Clearing(5, false)))
  {
    SoloStep(s, "1", Lane(Stopped, 5, false), Start);
    SoloStep(At5(s, Entered), "1", Lane(Entered, 5, false), ReadLedger(true));
    SoloStep(At5(s, Reaping(5)), "1", Lane(Reaping(5), 5, false), DeleteStale(NotFound));
  }

  /** The limit is reached: a pass that runs before 7 is recorded deletes it. */
  lemma FailedClearLosesRunningCycle(s: State, es: seq<Event>)
    requires s == State(World(map[], map[5 := Name("1", true)]), map["1" := Lane(Stopped, 5, false)], Idle)
    requires es == DirtyCycle() + PassOver(7)
    ensures Inv(s) && Run(s, es).Some?
    ensures Run(s, es).value.lanes == map["1" := Lane(Minted(7), 5, true)] && 7 !in Run(s, es).value.w.gh
  {
    DirtyCycleMints(s);
    var minted := Run(s, DirtyCycle()).value;
    PassTakes(minted, 7);
    RunConcat(s, DirtyCycle(), PassOver(7));
  }
}
