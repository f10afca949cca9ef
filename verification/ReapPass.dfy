/** The reap pass of a reconcile, over rows and host inspections, and the pass of the lane
    protocol are one. */
module ReapPass {
  import opened Options
  import opened UnitNames
  import opened Reconcile
  import LP = LaneProtocol

  /** The lanes of an org, as the pass finds them, are those of the protocol: active while a
      cycle runs, with that ledger. */
  ghost predicate Mirrors(s: LP.State, org: string, lanes: map<Key, LaneView>) {
    forall slot: string :: SameLane(s, org, lanes, slot)
  }

  ghost predicate SameLane(s: LP.State, org: string, lanes: map<Key, LaneView>, slot: string) {
    ((org, slot) in lanes <==> slot in s.lanes) &&
    (slot in s.lanes ==>
       lanes[(org, slot)] == LaneView(!s.lanes[slot].phase.Stopped?, s.lanes[slot].ledger))
  }

  /** A row GitHub lists for a registration of the protocol: under the name it was minted with,
      for a slot that is not empty and has no dash, and with its status. */
  ghost predicate Minted(s: LP.State, org: string, row: Row, token: string) {
    var id := row.runner.id;
    && row.org == org && id in s.w.gh && id in s.w.names
    && s.w.names[id].slot != "" && '-' !in s.w.names[id].slot
    && row.runner.name == RunnerName(org, s.w.names[id].slot, token)
    && s.w.gh[id] == LP.Status(row.runner.online, row.runner.busy)
  }

  /** A minted row is taken if and only if it is offline, idle and doomed in the protocol. */
  lemma AbandonedIffDoomed(s: LP.State, org: string, row: Row, token: string, lanes: map<Key, LaneView>)
    requires Mirrors(s, org, lanes) && Minted(s, org, row, token)
    ensures Abandoned(row, lanes) <==> s.w.gh[row.runner.id] == LP.OFFLINE && LP.Doomed(s, row.runner.id)
  {
    var slot := s.w.names[row.runner.id].slot;
    SlotOfMintedNameIff(org, slot, token);
    PrefixOfMinted(org, slot, token);
    assert SameLane(s, org, lanes, slot);
    if Abandoned(row, lanes) {
      var other :| SlotFromName(row.runner.name, row.org) == Some(other) && (row.org, other) in lanes &&
        LeavesBehind(lanes[(row.org, other)], row.runner.id);
      assert other == slot;
    }
  }

  lemma PrefixOfMinted(org: string, slot: string, token: string)
    ensures NAME_PREFIX <= RunnerName(org, slot, token)
  {
    assert RunnerName(org, slot, token) == NAME_PREFIX + (org + "-" + slot + "-" + token);
  }

  /** The ephemeral rows of an org are rows of the protocol. `token` gives the end of a name. */
  ghost predicate ListsMinted(s: LP.State, org: string, rows: seq<Row>, seen: set<Key>, token: int -> string) {
    forall row :: row in rows && row.org == org && NAME_PREFIX <= row.runner.name ==>
      Minted(s, org, row, token(row.runner.id)) && (org, row.runner.name) !in seen
  }

  /** The registrations of an org are, as far as lanes minted them, those of the protocol. */
  ghost predicate Registers(s: LP.State, org: string, registered: set<(string, int)>) {
    forall id :: id in s.w.names ==> ((org, id) in registered <==> id in s.w.gh)
  }

  /** The ids a pass of the protocol lists when it sees these rows. */
  ghost predicate SameListing(org: string, rows: seq<Row>, ids: set<int>) {
    forall id :: id in ids <==> exists row :: Shows(row, org, rows, id)
  }

  ghost predicate Shows(row: Row, org: string, rows: seq<Row>, id: int) {
    row in rows && row.org == org && NAME_PREFIX <= row.runner.name && row.runner.id == id &&
    !row.runner.online && !row.runner.busy
  }

  /** What a sweep leaves of an org's minted registrations: all but those that are listed,
      doomed and not refused. */
  lemma SweepExactly(s: LP.State, org: string, rows: seq<Row>, filter: string, seen: set<Key>, token: int -> string,
                     lanes: map<Key, LaneView>, refused: int -> bool, before: set<(string, int)>,
                     after: set<(string, int)>, reaped: seq<Row>, ids: set<int>, id: int)
    requires Mirrors(s, org, lanes) && ListsMinted(s, org, rows, seen, token) && Registers(s, org, before)
    requires (filter == "" || filter == org) && SameListing(org, rows, ids)
    requires Swept(rows, filter, seen, true, false, lanes, refused, before, after, reaped)
    requires id in s.w.names
    ensures (org, id) in after <==> id in s.w.gh && !(id in ids && LP.Doomed(s, id) && !refused(id))
  {
    if (org, id) in before && (org, id) !in after {
      assert ReapedAmong(reaped, (org, id));
      var row :| row in reaped && (row.org, row.runner.id) == (org, id);
      assert Takes(row, filter, seen, true, lanes);
      AbandonedIffDoomed(s, org, row, token(id), lanes);
      assert Shows(row, org, rows, id);
    }
    if id in ids && LP.Doomed(s, id) && !refused(id) {
      var row :| Shows(row, org, rows, id);
      AbandonedIffDoomed(s, org, row, token(id), lanes);
      assert Takes(row, filter, seen, true, lanes);
    }
  }

  /** So, with no delete refused, it leaves GitHub exactly as the protocol's pass does that lists
      the same rows and runs alone. */
  lemma SweepIsThePass(s: LP.State, es: seq<LP.Event>, org: string, rows: seq<Row>, filter: string, seen: set<Key>,
                       token: int -> string, lanes: map<Key, LaneView>, before: set<(string, int)>,
                       after: set<(string, int)>, reaped: seq<Row>)
    requires s.reaper.Idle? && LP.Alone(es) && LP.Run(s, es).Some? && LP.Run(s, es).value.reaper.Idle?
    requires Mirrors(s, org, lanes) && ListsMinted(s, org, rows, seen, token) && Registers(s, org, before)
    requires (filter == "" || filter == org) && SameListing(org, rows, LP.Listed(es))
    requires Swept(rows, filter, seen, true, false, lanes, (id: int) => false, before, after, reaped)
    ensures Registers(LP.Run(s, es).value, org, after)
  {
    LP.ReapPassExactly(s, es);
    LP.AloneRun(s, es, {});
    forall id | id in s.w.names ensures (org, id) in after <==> id in LP.Survivors(s, LP.Listed(es)) {
      SweepExactly(s, org, rows, filter, seen, token, lanes, id => false, before, after, reaped, LP.Listed(es), id);
    }
  }

  /** Whatever is asked of it, a pass never deletes the registration of a running cycle that
      minted over an empty ledger: not even between mint and record, when the ledger says 0. */
  lemma SweepSparesRunningCycles(s: LP.State, org: string, rows: seq<Row>, filter: string, seen: set<Key>,
                                 token: int -> string, reap: bool, dryRun: bool, lanes: map<Key, LaneView>,
                                 refused: int -> bool, before: set<(string, int)>, after: set<(string, int)>,
                                 reaped: seq<Row>, slot: string, id: int)
    requires LP.Inv(s) && LP.Protected(s, slot, id) && (org, id) in before
    requires Mirrors(s, org, lanes) && ListsMinted(s, org, rows, seen, token)
    requires Swept(rows, filter, seen, reap, dryRun, lanes, refused, before, after, reaped)
    ensures (org, id) in after
  {
    LP.ProtectedNotDoomed(s, slot, id);
    if (org, id) !in after {
      assert ReapedAmong(reaped, (org, id));
      var row :| row in reaped && (row.org, row.runner.id) == (org, id);
      assert Takes(row, filter, seen, reap, lanes);
      AbandonedIffDoomed(s, org, row, token(id), lanes);
    }
  }
}
