/** RunCycle itself: one job cycle over the ledger file and GitHub, run without
    interruption, and proved to be a path of the lane protocol. */
module RunCycle {
  import opened Text
  import opened Options
  import opened LaneProtocol

  /** PendingJIT: a missing or empty file, like any unparsable one, reads as no id. */
  function Pending(file: Option<string>): Id {
    match file
    case None => 0
    case Some(text) => Atoi(TrimSpace(text)).Lenient()
  }

  lemma PendingRecorded(id: nat)
    requires id <= MAX_INT
    ensures Pending(Some(Itoa(id))) == id && Pending(Some("")) == 0 && Pending(None) == 0
  {
    AtoiItoa(id);
    var t := Itoa(id);
    assert '0' <= t[0] <= '9' && '0' <= t[|t| - 1] <= '9';
    TrimSpaceNothing(t);
  }

  datatype MintFault = Fine | Fails | Lost
  datatype RecordFault = Recorded | NotOpened | NotWritten | NotSynced

  /** Everything the world decides during one cycle. A fault on a delete says whether the
      registration went anyway. */
  datatype Script = Script(
    readable: bool, staleDelete: Option<bool>, staleClear: bool, setup: bool,
    mint: MintFault, record: RecordFault, undo: Option<bool>,
    jobOk: bool, deregistered: bool, lookup: bool, finalDelete: Option<bool>, finalClear: bool)

  function Solo(w: World, slot: Slot, l: Lane): State {
    State(w, map[slot := l], Idle)
  }

  /** A delete with this fault takes the registration away, whatever it answers. */
  predicate Removes(fault: Option<bool>) {
    fault != Some(false)
  }

  /** The cycle starts by reaping a leftover. */
  predicate Reaps(stale: Id, script: Script) {
    script.readable && stale != 0
  }

  /** A registration that was minted is still live after the cycle. */
  predicate Outlives(script: Script) {
    if !script.record.Recorded? then !Removes(script.undo)
    else !script.deregistered && !(script.lookup && Removes(script.finalDelete))
  }

  /** The ledger after a cycle that minted `id` while it said `pending`. */
  function RecordedLedger(pending: Id, script: Script, id: Id): Id {
    match script.record
    case NotOpened => pending
    case NotWritten => 0
    case NotSynced => id
    case Recorded =>
      if !script.lookup || !script.finalClear || (!script.deregistered && script.finalDelete.Some?) then id else 0
  }

  /** The ledger after a cycle that found `stale` in it. */
  function LedgerAfter(stale: Id, script: Script, id: Id): Id {
    var reaped := if Reaps(stale, script) && script.staleClear then 0 else stale;
    if script.setup && script.mint.Fine? then RecordedLedger(reaped, script, id) else reaped
  }

  predicate SameLive(w: World, v: World, id: Id) {
    (id in w.gh <==> id in v.gh) && (id in w.gh ==> w.gh[id] == v.gh[id])
  }

  class Host {
    const slot: Slot
    var w: World
    var file: Option<string>

    /** The protocol's view: where the cycle stands, and the events so far since `s0`. */
    ghost var lane: Lane
    ghost var states: seq<State>
    ghost var trace: seq<Event>

    ghost predicate Valid() reads this {
      lane.ledger == Pending(file) && Path(states, trace) && states[|trace|] == Solo(w, slot, lane)
    }

    /** One step of the protocol has just been taken on the real state. */
    ghost method Took(a: Act, was: World)
      requires Path(states, trace) && states[|trace|] == Solo(was, slot, lane)
      requires CycleStep(was, lane, slot, a).Some?
      requires var (v, m) := CycleStep(was, lane, slot, a).value; v == w && m.ledger == Pending(file)
      modifies this`lane, this`states, this`trace
      ensures Valid() && states[0] == old(states[0])
      ensures lane == CycleStep(was, old(lane), slot, a).value.1
    {
      var (v, m) := CycleStep(was, lane, slot, a).value;
      SoloStep(Solo(was, slot, lane), slot, lane, a);
      Append(Cycle(slot, a), Solo(w, slot, m));
      lane := m;
    }

    ghost method Append(e: Event, s: State)
      requires Path(states, trace) && Step(states[|trace|], e) == Some(s)
      modifies this`states, this`trace
      ensures Path(states, trace) && states[|trace|] == s && states[0] == old(states[0])
    {
      trace, states := trace + [e], states + [s];
    }

    method DeleteRunner(id: Id, fault: Option<bool>) returns (reply: Reply)
      modifies this`w
      ensures Possible(old(w), id, reply) && w == Deleted(old(w), id, reply)
      ensures reply.Refused? <==> fault.Some?
      ensures w == if Removes(fault) then old(w).(gh := Without(old(w.gh), id)) else old(w)
    {
      match fault
      case Some(removed) =>
        reply := Refused(removed);
        if removed { w := w.(gh := Without(w.gh, id)); }
      case None =>
        if id in w.gh {
          reply := Accepted;
          w := w.(gh := Without(w.gh, id));
        } else {
          reply := NotFound;
        }
    }

    /** Reap the ghost a crashed cycle left behind. */
    method ReapStale(script: Script)
      requires Valid() && lane.phase.Stopped?
      modifies this
      ensures Valid() && states[0] == old(states[0]) && lane.phase.Setup? && w.names == old(w.names)
      ensures forall g :: g != old(Pending(file)) ==> SameLive(old(w), w, g)
      ensures var stale := old(Pending(file));
        && (stale in w.gh <==> stale in old(w.gh) && !(Reaps(stale, script) && Removes(script.staleDelete)))
        && Pending(file) == if Reaps(stale, script) && script.staleClear then 0 else stale
    {
      Took(Start, w);
      var stale := if script.readable then Pending(file) else 0;
      Took(ReadLedger(script.readable), w);
      if stale != 0 {
        ghost var was := w;
        var reply := DeleteRunner(stale, script.staleDelete);
        Took(DeleteStale(reply), was);
        if script.staleClear { file := None; }
        Took(ClearStale(script.staleClear), w);
      }
    }

    /** Mint a registration for this job; 0 when there is none to use. */
    method MintJIT(script: Script, id: Id) returns (cur: Id)
      requires Valid() && lane.phase.Setup? && Fresh(w, id)
      modifies this
      ensures Valid() && states[0] == old(states[0])
      ensures if cur == 0 then lane.phase.Failed? else cur == id && lane.phase == Minted(id)
      ensures cur != 0 <==> script.setup && script.mint.Fine?
      ensures file == old(file)
      ensures w == if script.setup && !script.mint.Fails? then Registered(old(w), id, Name(slot, true), OFFLINE)
                   else old(w)
      ensures cur != 0 ==> cur in w.gh && lane.dirty == (old(lane.ledger) != 0)
    {
      cur := 0;
      ghost var was := w;
      if !script.setup {
        Took(SetupFails, was);
      } else if script.mint.Fails? {
        Took(MintFails, was);
      } else {
        w := Registered(w, id, Name(slot, true), OFFLINE);
        if script.mint.Lost? {
          Took(MintLost(id), was);
        } else {
          Took(Mint(id), was);
          cur := id;
        }
      }
    }

    method TruncateFile()
      modifies this`file
      ensures file == Some("") && Pending(file) == 0
    {
      PendingRecorded(0);
      file := Some("");
    }

    method WriteFile(id: Id)
      requires 0 < id <= MAX_INT
      modifies this`file
      ensures Pending(file) == id
    {
      PendingRecorded(id);
      file := Some(Itoa(id));
    }

    /** RecordJIT: open with truncation, write, sync and close. */
    method RecordJIT(cur: Id, fault: RecordFault) returns (ok: bool)
      requires Valid() && lane.phase == Minted(cur) && 0 < cur <= MAX_INT
      modifies this
      ensures Valid() && states[0] == old(states[0]) && w == old(w) && ok == fault.Recorded?
      ensures lane.phase == if ok then Working(cur) else Unrecorded(cur)
      ensures ok ==> lane.ledger == cur
      ensures Pending(file) == if fault.NotOpened? then old(Pending(file)) else if fault.NotWritten? then 0 else cur
    {
      if fault.NotOpened? {
        Took(RecordFails(false), w);
        return false;
      }
      TruncateFile();
      Took(Truncate, w);
      if fault.NotWritten? {
        Took(RecordFails(false), w);
        return false;
      }
      WriteFile(cur);
      ok := fault.Recorded?;
      Took(if ok then Write else RecordFails(true), w);
    }

    /** Try to delete a registration that could not be recorded. */
    method Undo(cur: Id, fault: Option<bool>)
      requires Valid() && lane.phase == Unrecorded(cur)
      modifies this
      ensures Valid() && states[0] == old(states[0]) && lane.phase == Leaving(cur)
      ensures w == if Removes(fault) then old(w).(gh := Without(old(w.gh), cur)) else old(w)
      ensures file == old(file)
    {
      ghost var was := w;
      var reply := DeleteRunner(cur, fault);
      Took(Compensate(reply), was);
    }

    ghost method Leave()
      requires Valid() && (lane.phase.Leaving? || lane.phase.Failed?)
      modifies this`lane, this`states, this`trace
      ensures Valid() && lane.phase.Stopped? && states[0] == old(states[0])
      ensures lane.ledger == old(lane.ledger)
    {
      Took(Return, w);
    }

    /** Clear the ledger of a registration that is gone. */
    method ClearFinished(cur: Id, ok: bool)
      requires Valid() && lane.phase == Gone(cur)
      modifies this
      ensures Valid() && states[0] == old(states[0]) && lane.phase == Leaving(cur)
      ensures w == old(w) && Pending(file) == if ok then 0 else old(Pending(file))
    {
      if ok { file := None; }
      Took(ClearDone(ok), w);
    }

    /** Delete a registration that is still there; tells whether GitHub refused. */
    method DropFinished(cur: Id, fault: Option<bool>) returns (refused: bool)
      requires Valid() && lane.phase == StillThere(cur)
      modifies this
      ensures Valid() && states[0] == old(states[0]) && file == old(file)
      ensures refused <==> fault.Some?
      ensures lane.phase == if refused then Leaving(cur) else Gone(cur)
      ensures w == if Removes(fault) then old(w).(gh := Without(old(w.gh), cur)) else old(w)
    {
      ghost var was := w;
      var reply := DeleteRunner(cur, fault);
      Took(DeleteDone(reply), was);
      refused := reply.Refused?;
    }

    /** Decide the finished registration's fate by its state; tells whether it was found. The
        ledger keeps the id exactly when the look-up, the delete or the clear failed. */
    method Settle(cur: Id, script: Script) returns (found: bool)
      requires Valid() && lane.phase == Working(cur) && lane.ledger == cur
      modifies this
      ensures Valid() && states[0] == old(states[0]) && lane.phase == Leaving(cur)
      ensures found == (script.lookup && cur in old(w.gh))
      ensures Pending(file) ==
              if !script.lookup || !script.finalClear || (found && script.finalDelete.Some?) then cur else 0
      ensures w == if found && Removes(script.finalDelete) then old(w).(gh := Without(old(w.gh), cur)) else old(w)
    {
      found := script.lookup && cur in w.gh;
      if !script.lookup {
        Took(LookUp(Unclear), w);
      } else if found {
        Took(LookUp(Present), w);
        var refused := DropFinished(cur, script.finalDelete);
        if !refused { ClearFinished(cur, script.finalClear); }
      } else {
        Took(LookUp(Missing), w);
        ClearFinished(cur, script.finalClear);
      }
    }

    /** The job ran; its registration may have deregistered itself meanwhile. */
    method RunJob(cur: Id, deregistered: bool)
      requires Valid() && lane.phase == Working(cur)
      modifies this`w, this`states, this`trace
      ensures Valid() && lane == old(lane) && states[0] == old(states[0])
      ensures w == if deregistered then old(w).(gh := Without(old(w.gh), cur)) else old(w)
    {
      if deregistered {
        w := w.(gh := Without(w.gh, cur));
        Append(Vanish(cur), Solo(w, slot, lane));
      }
    }

    /** From the mint on: record, run the job, settle; or undo. */
    method RunMinted(cur: Id, script: Script) returns (failed: bool)
      requires Valid() && lane.phase == Minted(cur) && 0 < cur <= MAX_INT && cur in w.gh
      modifies this
      ensures Valid() && states[0] == old(states[0]) && lane.phase == Leaving(cur)
      ensures !failed <==> script.record.Recorded? && script.jobOk && (script.lookup ==> script.deregistered)
      ensures Pending(file) == RecordedLedger(old(Pending(file)), script, cur)
      ensures w == if Outlives(script) then old(w) else old(w).(gh := Without(old(w.gh), cur))
    {
      var recorded := RecordJIT(cur, script.record);
      if recorded {
        RunJob(cur, script.deregistered);
        var found := Settle(cur, script);
        failed := !script.jobOk || found;
      } else {
        Undo(cur, script.undo);
        failed := true;
      }
    }

    /** One whole cycle. It returns no error exactly when the job ran well and its
        registration was not found afterwards, and whatever happened the host went along
        a path of the lane protocol from rest to rest. For every combination of failures: what
        the ledger says, what became of the leftover and of the fresh registration, and that
        nothing else on GitHub changed. */
    method RunCycle(script: Script, id: Id) returns (failed: bool)
      requires Valid() && lane.phase.Stopped? && Fresh(w, id)
      modifies this
      ensures Valid() && states[0] == old(states[0]) && lane.phase.Stopped?
      ensures !failed <==> script.setup && script.mint.Fine? && script.record.Recorded? && script.jobOk &&
                           (script.lookup ==> script.deregistered)
      ensures Pending(file) == LedgerAfter(old(Pending(file)), script, id)
      ensures w.names == if script.setup && !script.mint.Fails? then old(w.names)[id := Name(slot, true)]
                         else old(w.names)
      ensures script.setup && !script.mint.Fails? ==> (id in w.gh <==> script.mint.Lost? || Outlives(script))
      ensures var stale := old(Pending(file));
        stale != id ==>
          (stale in w.gh <==> stale in old(w.gh) && !(Reaps(stale, script) && Removes(script.staleDelete)))
      ensures forall g :: g != id && g != old(Pending(file)) ==> SameLive(old(w), w, g)
    {
      ghost var w0, stale := w, Pending(file);
      ReapStale(script);
      ghost var w1 := w;
      var cur := MintJIT(script, id);
      ghost var w2 := w;
      failed := true;
      if cur != 0 {
        failed := RunMinted(cur, script);
      }
      forall g | g != id ensures SameLive(w1, w, g) {
        assert SameLive(w1, w2, g) && SameLive(w2, w, g);
      }
      forall g | g != id && g != stale ensures SameLive(w0, w, g) {
        assert SameLive(w0, w1, g) && SameLive(w1, w, g);
      }
      assert stale != id ==> SameLive(w1, w, stale);
      Leave();
    }
  }
}
