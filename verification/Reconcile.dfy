/** The reconcile pass: list GitHub, enumerate the host, classify, reap, repair. */
module Reconcile {
  import opened Options
  import opened Text
  import opened UnitNames
  import opened Classify
  import opened Sorting

  type Key = (string, string)     // org and runner name, or org and slot

  datatype Runner = Runner(name: string, id: int, online: bool, busy: bool)
  datatype Row = Row(org: string, runner: Runner, local: bool) {
    function Key(): Key { (org, runner.name) }
  }

  /** What GitHub answers for an org: nothing usable, or its runners. */
  type Api = string -> Option<seq<Runner>>

  // ---------------------------------------------------------------- listing

  function RowsOf(org: string, rs: seq<Runner>, local: Key -> bool): seq<Row> {
    seq(|rs|, i requires 0 <= i < |rs| => Row(org, rs[i], local((org, rs[i].name))))
  }

  ghost predicate Listing(orgs: seq<string>, api: Api, rows: seq<Row>, failed: set<string>) {
    && (forall o :: o in failed <==> o in orgs && api(o).None?)
    && (forall r :: r in rows ==> r.org in orgs && api(r.org).Some? && r.runner in api(r.org).value)
    && (forall o, x :: o in orgs && api(o).Some? && x in api(o).value ==>
          exists i :: 0 <= i < |rows| && rows[i].org == o && rows[i].runner == x)
  }

  /** ListAllRunners: one query per configured org; an error is noted and skipped. */
  method ListAllRunners(orgs: seq<string>, api: Api, local: Key -> bool) returns (rows: seq<Row>, failed: set<string>)
    ensures Listing(orgs, api, rows, failed)
  {
    rows, failed := [], {};
    for i := 0 to |orgs|
      invariant Listing(orgs[..i], api, rows, failed)
    {
      assert orgs[..i + 1] == orgs[..i] + [orgs[i]];
      match api(orgs[i])
      case None =>
        failed := failed + {orgs[i]};
      case Some(rs) =>
        var more := RowsOf(orgs[i], rs, local);
        ListingGrows(orgs[..i], api, rows, failed, orgs[i], more);
        rows := rows + more;
    }
    assert orgs[..|orgs|] == orgs;
  }

  lemma ListingGrows(orgs: seq<string>, api: Api, rows: seq<Row>, failed: set<string>, org: string, more: seq<Row>)
    requires Listing(orgs, api, rows, failed) && api(org).Some?
    requires |more| == |api(org).value|
    requires forall i :: 0 <= i < |more| ==> more[i].org == org && more[i].runner == api(org).value[i]
    ensures Listing(orgs + [org], api, rows + more, failed)
  {
    var all := rows + more;
    forall o, x | o in orgs + [org] && api(o).Some? && x in api(o).value
      ensures exists i :: 0 <= i < |all| && all[i].org == o && all[i].runner == x
    {
      if o == org {
        var k :| 0 <= k < |more| && api(org).value[k] == x;
        assert all[|rows| + k] == more[k];
      } else {
        var k :| 0 <= k < |rows| && rows[k].org == o && rows[k].runner == x;
        assert all[k] == rows[k];
      }
    }
    forall r | r in all ensures r.org in orgs + [org] && api(r.org).Some? && r.runner in api(r.org).value {
      if r !in rows { assert r in more; }
    }
  }

  // ---------------------------------------------------------------- the verdicts

  datatype Fix = NoFix | SkippedBusy | SkippedNewer | WouldRemove | DidRemove | WouldRefresh | DidRefresh | FixFailed

  datatype Verdict = Verdict(key: Key, class_: Class, onGitHub: bool, online: bool, busy: bool, fix: Fix)

  predicate InScope(filter: string, org: string) {
    filter == "" || org == filter
  }

  ghost predicate Indexes(gh: map<Key, Row>, rows: seq<Row>, filter: string) {
    (forall r :: r in rows && InScope(filter, r.org) ==> r.Key() in gh) &&
    (forall k :: k in gh ==> gh[k] in rows && InScope(filter, gh[k].org) && gh[k].Key() == k)
  }

  /** The rows by org and name. */
  method IndexRows(rows: seq<Row>, filter: string) returns (gh: map<Key, Row>)
    ensures Indexes(gh, rows, filter)
  {
    gh := map[];
    for i := 0 to |rows|
      invariant Indexes(gh, rows[..i], filter)
    {
      assert rows[..i + 1] == rows[..i] + [rows[i]];
      if InScope(filter, rows[i].org) {
        gh := gh[rows[i].Key() := rows[i]];
      }
    }
    assert rows[..|rows|] == rows;
  }

  function KeyAt(prefix: string, orgs: seq<string>, filter: string): string -> seq<Key> {
    (svc: string) =>
      var p := Parsed(prefix, svc, orgs);
      if p.Some? && InScope(filter, p.value.0) then [p.value] else []
  }

  /** The org and name of every parsable unit in scope, in the order of the units. */
  function Keys(prefix: string, units: seq<string>, orgs: seq<string>, filter: string): seq<Key> {
    Collect(units, KeyAt(prefix, orgs, filter))
  }

  function Elements(ks: seq<Key>): set<Key> {
    set k | k in ks
  }

  method ParseKey(prefix: string, svc: string, orgs: seq<string>, filter: string) returns (ks: seq<Key>)
    ensures |ks| <= 1 && ks == KeyAt(prefix, orgs, filter)(svc)
  {
    var p := ParseUnit(prefix, svc, orgs);
    ks := if p.Some? && InScope(filter, p.value.0) then [p.value] else [];
  }

  lemma KeysAre(prefix: string, units: seq<string>, orgs: seq<string>, filter: string)
    ensures forall k :: k in Keys(prefix, units, orgs, filter) <==>
              exists i :: 0 <= i < |units| && Parsed(prefix, units[i], orgs) == Some(k) &&
                          (filter == "" || k.0 == filter)
  {
    var f := KeyAt(prefix, orgs, filter);
    forall k ensures k in Keys(prefix, units, orgs, filter) <==>
              exists i :: 0 <= i < |units| && Parsed(prefix, units[i], orgs) == Some(k) &&
                          (filter == "" || k.0 == filter)
    {
      CollectMember(units, f, k);
      forall i | 0 <= i < |units|
        ensures k in f(units[i]) <==> Parsed(prefix, units[i], orgs) == Some(k) && (filter == "" || k.0 == filter)
      {
        KeyIs(prefix, units[i], orgs, filter, k);
      }
    }
  }

  lemma KeyIs(prefix: string, svc: string, orgs: seq<string>, filter: string, k: Key)
    ensures k in KeyAt(prefix, orgs, filter)(svc) <==>
            Parsed(prefix, svc, orgs) == Some(k) && (filter == "" || k.0 == filter)
  {}

  /** What the directory listing returns: names with the family's prefix and suffix. */
  ghost predicate UnitFiles(prefix: string, units: seq<string>) {
    (forall i :: 0 <= i < |units| ==> HasPrefix(units[i], prefix) && HasSuffix(units[i][|prefix|..], UNIT_SUFFIX)) &&
    (forall i, j :: 0 <= i < j < |units| ==> units[i] != units[j])
  }

  lemma {:induction false} CollectOnce(units: seq<string>, f: string -> seq<Key>)
    requires forall svc :: |f(svc)| <= 1
    requires forall i, j, k :: 0 <= i < j < |units| && k in f(units[i]) ==> k !in f(units[j])
    ensures Once(Collect(units, f))
  {
    if units == [] {
    } else {
      var rest := units[1..];
      CollectOnce(rest, f);
      forall k | k in f(units[0]) ensures k !in Collect(rest, f) {
        CollectMember(rest, f, k);
      }
      OnceConcat(f(units[0]), Collect(rest, f));
    }
  }

  lemma OnceConcat(a: seq<Key>, b: seq<Key>)
    requires |a| <= 1 && Once(b) && forall k :: k in a ==> k !in b
    ensures Once(a + b)
  {
    if a != [] {
      assert a[0] in a;
    } else {
      assert a + b == b;
    }
  }

  /** Exactly one verdict: no two units of a host share an org and name. */
  lemma KeysOnce(prefix: string, units: seq<string>, orgs: seq<string>, filter: string)
    requires UnitFiles(prefix, units)
    ensures Once(Keys(prefix, units, orgs, filter))
  {
    var f := KeyAt(prefix, orgs, filter);
    forall i, j, k | 0 <= i < j < |units| && k in f(units[i]) ensures k !in f(units[j]) {
      if k in f(units[j]) {
        UnitsParseApart(prefix, units[i], units[j], orgs);
      }
    }
    CollectOnce(units, f);
  }

  function PersistentVerdict(k: Key, gh: map<Key, Row>, listedOK: set<string>, insp: Inspection): Verdict {
    var on := k in gh;
    var online, busy := on && gh[k].runner.online, on && gh[k].runner.busy;
    Verdict(k, ClassifyPersistent(insp, on, k.0 in listedOK, online), on, online, busy, NoFix)
  }

  /** Verdicts of the persistent units, in order. */
  method JudgePersistent(units: seq<string>, orgs: seq<string>, filter: string, gh: map<Key, Row>,
                         listedOK: set<string>, inspect: Key -> Inspection)
    returns (vs: seq<Verdict>, seen: set<Key>)
    ensures |vs| == |Keys(RUNNER_PREFIX, units, orgs, filter)|
    ensures forall i :: 0 <= i < |vs| ==>
              vs[i] == PersistentVerdict(Keys(RUNNER_PREFIX, units, orgs, filter)[i], gh, listedOK,
                                         inspect(Keys(RUNNER_PREFIX, units, orgs, filter)[i]))
    ensures forall k :: k in seen <==> k in Keys(RUNNER_PREFIX, units, orgs, filter)
  {
    vs, seen := [], {};
    ghost var ks: seq<Key> := [];
    for i := 0 to |units|
      invariant ks == Keys(RUNNER_PREFIX, units[..i], orgs, filter) && |vs| == |ks|
      invariant forall j :: 0 <= j < |ks| ==> vs[j] == PersistentVerdict(ks[j], gh, listedOK, inspect(ks[j]))
      invariant forall k :: k in seen <==> k in ks
    {
      CollectNext(units, i, KeyAt(RUNNER_PREFIX, orgs, filter));
      var more := ParseKey(RUNNER_PREFIX, units[i], orgs, filter);
      if more != [] {
        vs := vs + [PersistentVerdict(more[0], gh, listedOK, inspect(more[0]))];
        seen := seen + {more[0]};
      }
      ks := ks + more;
    }
    assert units[..|units|] == units;
  }

  function LaneVerdict(k: Key, insp: LaneInspection): Verdict {
    Verdict(k, ClassifyEphemeral(insp), false, false, false, NoFix)
  }

  /** Verdicts of the ephemeral lanes: host health alone, never joined to GitHub. */
  method JudgeEphemeral(units: seq<string>, orgs: seq<string>, filter: string, inspect: Key -> LaneInspection)
    returns (vs: seq<Verdict>)
    ensures |vs| == |Keys(EPHEMERAL_PREFIX, units, orgs, filter)|
    ensures forall i :: 0 <= i < |vs| ==> var k := Keys(EPHEMERAL_PREFIX, units, orgs, filter)[i];
              FairLane(vs[i], k, inspect(k))
  {
    vs := [];
    ghost var ks: seq<Key> := [];
    for i := 0 to |units|
      invariant ks == Keys(EPHEMERAL_PREFIX, units[..i], orgs, filter) && |vs| == |ks|
      invariant forall j :: 0 <= j < |ks| ==> FairLane(vs[j], ks[j], inspect(ks[j]))
    {
      CollectNext(units, i, KeyAt(EPHEMERAL_PREFIX, orgs, filter));
      var more := ParseKey(EPHEMERAL_PREFIX, units[i], orgs, filter);
      if more != [] {
        vs := vs + [LaneVerdict(more[0], inspect(more[0]))];
      }
      ks := ks + more;
    }
    assert units[..|units|] == units;
  }

  // ---------------------------------------------------------------- effects

  /** A lane's unit on this host: whether its process runs, and its ledger. */
  datatype LaneView = LaneView(active: bool, pending: int)

  /** How an effect on the host ends: done, failed before it took place, or after. */
  datatype Fate = Done | FailedEarly | FailedLate

  /** A listed registration is taken for abandoned: it is offline and idle, its name says a slot
      this host has, and that lane is down, or works on another registration. */
  ghost predicate Abandoned(row: Row, lanes: map<Key, LaneView>) {
    && !row.runner.online && !row.runner.busy && NAME_PREFIX <= row.runner.name
    && exists slot :: SlotFromName(row.runner.name, row.org) == Some(slot) && (row.org, slot) in lanes &&
         LeavesBehind(lanes[(row.org, slot)], row.runner.id)
  }

  /** A lane that is down, or whose ledger names some other registration. */
  predicate LeavesBehind(lane: LaneView, id: int) {
    !lane.active || lane.pending !in {0, id}
  }

  /** maybeReapGhost, for an offline ephemeral row: whether it goes. */
  method MaybeReapGhost(row: Row, lanes: map<Key, LaneView>) returns (goes: bool)
    requires IsEphemeralName(row.runner.name) && !row.runner.online && !row.runner.busy
    ensures goes <==> Abandoned(row, lanes)
  {
    var slot := SlotFromName(row.runner.name, row.org);
    if slot.None? {
      return false;
    }
    var k := (row.org, slot.value);
    if k !in lanes {
      return false;
    }
    if lanes[k].active {
      var pending := lanes[k].pending;
      if pending == 0 || row.runner.id == pending {
        return false;
      }
    }
    goes := true;
  }

  /** What a reap pass over these rows does to GitHub: the rows taken are exactly the abandoned
      ones in scope that are no unit's own; a registration goes only as one of them, and all of
      them go unless GitHub refuses. */
  ghost predicate Swept(rows: seq<Row>, filter: string, seen: set<Key>, reap: bool, dryRun: bool,
                        lanes: map<Key, LaneView>, refused: int -> bool, before: set<(string, int)>,
                        after: set<(string, int)>, reaped: seq<Row>)
  {
    && after <= before && (!reap || dryRun ==> after == before)
    && (forall row :: row in reaped <==> row in rows && Takes(row, filter, seen, reap, lanes))
    && (forall g :: g in before - after ==> ReapedAmong(reaped, g) && !refused(g.1))
    && (!dryRun ==> forall row :: row in reaped && !refused(row.runner.id) ==> (row.org, row.runner.id) !in after)
  }

  ghost predicate Takes(row: Row, filter: string, seen: set<Key>, reap: bool, lanes: map<Key, LaneView>) {
    reap && (filter == "" || row.org == filter) && (row.org, row.runner.name) !in seen && Abandoned(row, lanes)
  }

  /** The verdict on a GitHub runner without a unit here: none for ephemeral registrations
      and for another host's healthy runners. */
  function StrayAt(filter: string, seen: set<Key>): Row -> seq<Verdict> {
    (row: Row) =>
      if InScope(filter, row.org) && row.Key() !in seen && !IsEphemeralName(row.runner.name) &&
        !(row.runner.online && !row.local)
      then [Verdict(row.Key(), OrphanGitHub, true, row.runner.online, row.runner.busy, NoFix)] else []
  }

  lemma StraysAre(rows: seq<Row>, filter: string, seen: set<Key>)
    ensures forall v :: v in Collect(rows, StrayAt(filter, seen)) ==> v.class_.OrphanGitHub? && v.fix.NoFix?
  {
    forall v | v in Collect(rows, StrayAt(filter, seen)) ensures v.class_.OrphanGitHub? && v.fix.NoFix? {
      CollectMember(rows, StrayAt(filter, seen), v);
    }
  }

  predicate IsEphemeralName(name: string) {
    HasPrefix(name, NAME_PREFIX)
  }

  ghost predicate OrphanAmong(vs: seq<Verdict>, k: Key) {
    exists v :: v in vs && v.key == k && v.class_.OrphanUnit?
  }

  ghost predicate RewriteAmong(vs: seq<Verdict>, k: Key) {
    exists v :: v in vs && v.key == k && Rewrites(v.class_) && !v.busy
  }

  ghost predicate ReapedAmong(reaped: seq<Row>, g: (string, int)) {
    exists row :: row in reaped && (row.org, row.runner.id) == g
  }

  lemma ReapedGrows(reaped: seq<Row>, row: Row)
    ensures forall g :: ReapedAmong(reaped, g) ==> ReapedAmong(reaped + [row], g)
  {
    forall g | ReapedAmong(reaped, g) ensures ReapedAmong(reaped + [row], g) {
      var r :| r in reaped && (r.org, r.runner.id) == g;
      assert r in reaped + [row];
    }
  }

  /** A fix that is reported as done is done. */
  ghost predicate Truthful(vs: seq<Verdict>, units: set<Key>, rewritten: set<Key>) {
    forall v :: v in vs ==> (v.fix.DidRemove? ==> v.key !in units) && (v.fix.DidRefresh? ==> v.key in rewritten)
  }

  /** Every fix that is due and does not fail before taking effect takes effect. */
  ghost predicate CarriedOut(vs: seq<Verdict>, fate: Key -> Fate, units: set<Key>, rewritten: set<Key>) {
    forall v :: v in vs && !v.busy && !fate(v.key).FailedEarly? ==>
      (v.class_.OrphanUnit? ==> v.key !in units) && (Rewrites(v.class_) ==> v.key in rewritten)
  }

  /** One more row, taken or not. */
  lemma SweptNext(rows: seq<Row>, row: Row, filter: string, seen: set<Key>, reap: bool, dryRun: bool,
                  lanes: map<Key, LaneView>, refused: int -> bool, before: set<(string, int)>,
                  after: set<(string, int)>, reaped: seq<Row>, goes: bool)
    requires Swept(rows, filter, seen, reap, dryRun, lanes, refused, before, after, reaped)
    requires goes <==> Takes(row, filter, seen, reap, lanes)
    ensures var g := (row.org, row.runner.id);
      Swept(rows + [row], filter, seen, reap, dryRun, lanes, refused, before,
            if goes && !dryRun && !refused(g.1) then after - {g} else after, if goes then reaped + [row] else reaped)
  {
    var g := (row.org, row.runner.id);
    ReapedGrows(reaped, row);
    if goes { assert row in reaped + [row] && ReapedAmong(reaped + [row], g); }
  }

  ghost predicate HasRow(rows: seq<Row>, org: string, x: Runner) {
    exists row :: row in rows && row.org == org && row.runner == x
  }

  ghost predicate OnlyRows(queried: seq<string>, api: Api, rows: seq<Row>) {
    forall row :: row in rows ==> row.org in queried && api(row.org).Some? && row.runner in api(row.org).value
  }

  ghost predicate AllRows(queried: seq<string>, api: Api, rows: seq<Row>) {
    forall o, x :: o in queried && api(o).Some? && x in api(o).value ==> HasRow(rows, o, x)
  }

  /** Every abandoned registration GitHub told of, in scope and no unit's own, is among the rows. */
  ghost predicate AllTaken(queried: seq<string>, api: Api, filter: string, ks: seq<Key>, lanes: map<Key, LaneView>,
                           reaped: seq<Row>)
  {
    forall o, x :: (o in queried && api(o).Some? && x in api(o).value && InScope(filter, o) && (o, x.name) !in ks &&
                    Abandoned(Row(o, x, false), lanes)) ==> HasRow(reaped, o, x)
  }

  lemma Taken(queried: seq<string>, api: Api, filter: string, ks: seq<Key>, lanes: map<Key, LaneView>, rows: seq<Row>,
              reaped: seq<Row>)
    requires AllRows(queried, api, rows)
    requires forall row :: row in rows && InScope(filter, row.org) && row.Key() !in ks && Abandoned(row, lanes) ==>
              row in reaped
    ensures AllTaken(queried, api, filter, ks, lanes, reaped)
  {
    forall o, x | o in queried && api(o).Some? && x in api(o).value && InScope(filter, o) && (o, x.name) !in ks &&
                  Abandoned(Row(o, x, false), lanes)
      ensures HasRow(reaped, o, x)
    {
      assert HasRow(rows, o, x);
      var row :| row in rows && row.org == o && row.runner == x;
      assert row.Key() == (o, x.name) && Abandoned(row, lanes);
    }
  }

  lemma ListedRows(queried: seq<string>, api: Api, rows: seq<Row>, failed: set<string>)
    requires Listing(queried, api, rows, failed)
    ensures AllRows(queried, api, rows)
  {
    forall o, x | o in queried && api(o).Some? && x in api(o).value ensures HasRow(rows, o, x) {
      var i :| 0 <= i < |rows| && rows[i].org == o && rows[i].runner == x;
      assert rows[i] in rows;
    }
  }

  /** The verdict on a persistent unit: its place on GitHub is what GitHub answered, and its
      class follows from that and its inspection. An org that was asked and did not answer
      is not trusted; one that was not asked is. */
  ghost predicate Fair(v: Verdict, k: Key, queried: seq<string>, api: Api, insp: Inspection) {
    && v.key == k && v.fix.NoFix?
    && (v.onGitHub <==> Answered(queried, api, k.0) && HasRunner(api, k))
    && (if v.onGitHub then IsListed(api, k, v.online, v.busy) else !v.online && !v.busy)
    && PersistentClass(v.class_, insp, v.onGitHub, k.0 in queried && api(k.0).None?, v.online)
  }

  /** The verdict on a lane: by its host alone. */
  ghost predicate FairLane(v: Verdict, k: Key, insp: LaneInspection) {
    && v.key == k && v.fix.NoFix? && !v.onGitHub && !v.online && !v.busy
    && (v.class_ == EphemeralNewer <==> insp.unitNewer)
    && (v.class_ == EphemeralSlot <==> !insp.unitNewer && insp.unitOK && insp.active)
    && (v.class_ == EphemeralStuck <==> !insp.unitNewer && !(insp.unitOK && insp.active))
  }

  ghost predicate IsListed(api: Api, k: Key, online: bool, busy: bool) {
    api(k.0).Some? && exists x :: x in api(k.0).value && x.name == k.1 && x.online == online && x.busy == busy
  }

  /** One verdict for each unit, persistent ones first; lanes by host health alone. */
  ghost predicate Judged(vs: seq<Verdict>, ps: seq<Key>, es: seq<Key>, queried: seq<string>, api: Api,
                         inspect: Key -> Inspection, inspectLane: Key -> LaneInspection)
  {
    && |vs| == |ps| + |es|
    && (forall i :: 0 <= i < |ps| ==> Fair(vs[i], ps[i], queried, api, inspect(ps[i])))
    && (forall i :: 0 <= i < |es| ==> FairLane(vs[|ps| + i], es[i], inspectLane(es[i])))
  }

  /** The pass up to the verdicts on the host's own units. */
  method Assess(cfgOrgs: seq<string>, queried: seq<string>, api: Api, local: Key -> bool, filter: string,
                unitFiles: seq<string>, laneFiles: seq<string>, inspect: Key -> Inspection,
                inspectLane: Key -> LaneInspection)
    returns (rows: seq<Row>, vs: seq<Verdict>, seen: set<Key>, ghost orgs: seq<string>)
    ensures LongestFirst(orgs) && forall o :: o in orgs <==> o in cfgOrgs
    ensures Judged(vs, Keys(RUNNER_PREFIX, unitFiles, orgs, filter), Keys(EPHEMERAL_PREFIX, laneFiles, orgs, filter),
                   queried, api, inspect, inspectLane)
    ensures Grounded(vs, Keys(RUNNER_PREFIX, unitFiles, orgs, filter), queried, api, inspect)
    ensures forall v :: v in vs ==> v.fix.NoFix?
    ensures AllRows(queried, api, rows) && OnlyRows(queried, api, rows)
    ensures forall k :: k in seen <==> k in Keys(RUNNER_PREFIX, unitFiles, orgs, filter)
  {
    var failed;
    rows, failed := ListAllRunners(queried, api, local);
    ListedRows(queried, api, rows, failed);
    var gh := IndexRows(rows, filter);
    var orgsByLen := ByLength(cfgOrgs);
    orgs := orgsByLen;
    var listedOK := set o | o in orgsByLen && o !in failed;
    var persistent;
    persistent, seen := JudgePersistent(unitFiles, orgsByLen, filter, gh, listedOK, inspect);
    var ephemeral := JudgeEphemeral(laneFiles, orgsByLen, filter, inspectLane);
    ghost var ps, es := Keys(RUNNER_PREFIX, unitFiles, orgs, filter), Keys(EPHEMERAL_PREFIX, laneFiles, orgs, filter);
    AllFair(orgs, queried, api, rows, failed, gh, filter, unitFiles, persistent, inspect);
    vs := persistent + ephemeral;
    JudgedConcat(persistent, ephemeral, ps, es, queried, api, inspect, inspectLane);
    JudgedGrounded(vs, ps, es, queried, api, inspect, inspectLane);
  }

  lemma JudgedConcat(vs: seq<Verdict>, ws: seq<Verdict>, ps: seq<Key>, es: seq<Key>, queried: seq<string>, api: Api,
                     inspect: Key -> Inspection, inspectLane: Key -> LaneInspection)
    requires |vs| == |ps| && forall i :: 0 <= i < |ps| ==> Fair(vs[i], ps[i], queried, api, inspect(ps[i]))
    requires |ws| == |es| && forall i :: 0 <= i < |es| ==> FairLane(ws[i], es[i], inspectLane(es[i]))
    ensures Judged(vs + ws, ps, es, queried, api, inspect, inspectLane)
  {}

  /** Whoever a fix acts on is a unit of the host, and there are grounds for it. */
  ghost predicate Grounded(vs: seq<Verdict>, ks: seq<Key>, queried: seq<string>, api: Api, inspect: Key -> Inspection) {
    (forall k :: OrphanAmong(vs, k) ==> k in ks && (k.0 in queried ==> api(k.0).Some? && !HasRunner(api, k))) &&
    (forall k :: RewriteAmong(vs, k) ==> !inspect(k).dropInNewer && HasIdle(api, k))
  }

  ghost predicate HasIdle(api: Api, k: Key) {
    api(k.0).Some? && exists x :: x in api(k.0).value && x.name == k.1 && !x.busy
  }

  lemma JudgedGrounded(vs: seq<Verdict>, ps: seq<Key>, es: seq<Key>, queried: seq<string>, api: Api,
                       inspect: Key -> Inspection, inspectLane: Key -> LaneInspection)
    requires Judged(vs, ps, es, queried, api, inspect, inspectLane)
    ensures Grounded(vs, ps, queried, api, inspect) && forall v :: v in vs ==> v.fix.NoFix? && !v.class_.OrphanGitHub?
  {
    forall j | 0 <= j < |vs|
      ensures vs[j].fix.NoFix? && !vs[j].class_.OrphanGitHub?
      ensures vs[j].class_.OrphanUnit? || Rewrites(vs[j].class_) ==>
                vs[j].key in ps && Fair(vs[j], vs[j].key, queried, api, inspect(vs[j].key))
    {
      if j < |ps| {
        assert Fair(vs[j], ps[j], queried, api, inspect(ps[j])) && ps[j] in ps;
      } else {
        assert FairLane(vs[|ps| + (j - |ps|)], es[j - |ps|], inspectLane(es[j - |ps|]));
      }
    }
  }

  function VerdictBefore(a: Verdict, b: Verdict): bool {
    PairBefore(a.key, b.key)
  }

  lemma VerdictsOrdered()
    ensures WeakOrder(VerdictBefore)
  {
    forall a: Verdict, b: Verdict | VerdictBefore(a, b) ensures !VerdictBefore(b, a) {
      BeforeTotal(a.key.0, b.key.0);
      BeforeTotal(a.key.1, b.key.1);
    }
    forall a: Verdict, b: Verdict, c: Verdict | !VerdictBefore(b, a) && !VerdictBefore(c, b)
      ensures !VerdictBefore(c, a)
    {
      PairBeforeTransitive(a.key, b.key, c.key);
    }
  }

  /** By org, then by name. */
  ghost predicate InOrder(vs: seq<Verdict>) {
    forall i, j :: 0 <= i < j < |vs| ==> !PairBefore(vs[j].key, vs[i].key)
  }

  /** Each of these verdicts stands in the report, in a place of its own; the places left are
      taken by GitHub runners without a unit. */
  ghost predicate Filed(judged: seq<Verdict>, vs: seq<Verdict>, place: seq<nat>) {
    && |judged| <= |vs| == |place| && Once(place)
    && (forall j :: 0 <= j < |vs| ==> j in place)
    && (forall i :: 0 <= i < |place| ==> place[i] < |vs|)
    && (forall i :: 0 <= i < |judged| ==> vs[place[i]].(fix := NoFix) == judged[i])
    && (forall i :: |judged| <= i < |place| ==> vs[place[i]].class_.OrphanGitHub?)
  }

  method SortReport(judged: seq<Verdict>, strays: seq<Verdict>) returns (report: seq<Verdict>, ghost place: seq<nat>)
    requires forall v :: v in strays ==> v.class_.OrphanGitHub? && v.fix.NoFix?
    requires forall v :: v in judged ==> v.fix.NoFix?
    ensures InOrder(report) && forall v :: v in report ==> v.fix.NoFix?
    ensures Filed(judged, report, place)
    ensures forall k :: OrphanAmong(report, k) ==> OrphanAmong(judged, k)
    ensures forall k :: RewriteAmong(report, k) ==> RewriteAmong(judged, k)
  {
    VerdictsOrdered();
    report := Sort(judged + strays, VerdictBefore);
    Rearranged(judged + strays, report);
    place := Placement(judged + strays, report);
    InertTail(judged, strays);
    SameAmong(judged + strays, report);
    FiledSorted(judged, strays, report, place);
  }

  lemma FiledSorted(judged: seq<Verdict>, strays: seq<Verdict>, report: seq<Verdict>, place: seq<nat>)
    requires Places(judged + strays, report, place)
    requires forall v :: v in strays ==> v.class_.OrphanGitHub?
    requires forall v :: v in judged ==> v.fix.NoFix?
    ensures Filed(judged, report, place)
  {
    var all := judged + strays;
    forall i | 0 <= i < |place|
      ensures place[i] < |report|
      ensures if i < |judged| then report[place[i]].(fix := NoFix) == judged[i]
              else report[place[i]].class_.OrphanGitHub?
    {
      assert report[place[i]] == all[i];
      if i < |judged| {
        assert all[i] == judged[i] && judged[i] in judged;
        assert judged[i].(fix := NoFix) == judged[i];
      } else {
        assert all[i] == strays[i - |judged|];
      }
    }
  }

  lemma FiledRepaired(judged: seq<Verdict>, vs: seq<Verdict>, ws: seq<Verdict>, place: seq<nat>)
    requires Filed(judged, vs, place) && InOrder(vs) && |ws| == |vs|
    requires forall i :: 0 <= i < |vs| ==> ws[i].(fix := NoFix) == vs[i].(fix := NoFix)
    ensures Filed(judged, ws, place) && InOrder(ws)
  {
    forall i | 0 <= i < |vs| ensures ws[i].key == vs[i].key && ws[i].class_ == vs[i].class_ {
      assert ws[i].(fix := NoFix).key == vs[i].(fix := NoFix).key;
      assert ws[i].(fix := NoFix).class_ == vs[i].(fix := NoFix).class_;
    }
  }

  lemma SameAmong(vs: seq<Verdict>, ws: seq<Verdict>)
    requires forall v :: v in vs <==> v in ws
    ensures forall k :: OrphanAmong(vs, k) <==> OrphanAmong(ws, k)
    ensures forall k :: RewriteAmong(vs, k) <==> RewriteAmong(ws, k)
  {}

  /** Verdicts a fix never acts on. */
  ghost predicate Inert(vs: seq<Verdict>) {
    forall v :: v in vs ==> !v.class_.OrphanUnit? && !Rewrites(v.class_)
  }

  lemma InertTail(vs: seq<Verdict>, more: seq<Verdict>)
    requires Inert(more)
    ensures forall k :: OrphanAmong(vs + more, k) ==> OrphanAmong(vs, k)
    ensures forall k :: RewriteAmong(vs + more, k) ==> RewriteAmong(vs, k)
  {
    var all := vs + more;
    assert forall v :: v in all ==> v in vs || v in more;
    forall k | OrphanAmong(all, k) ensures OrphanAmong(vs, k) {
      var v :| v in all && v.key == k && v.class_.OrphanUnit?;
      assert v in vs;
    }
    forall k | RewriteAmong(all, k) ensures RewriteAmong(vs, k) {
      var v :| v in all && v.key == k && Rewrites(v.class_) && !v.busy;
      assert v in vs;
    }
  }

  lemma AllFair(cfgOrgs: seq<string>, queried: seq<string>, api: Api, rows: seq<Row>, failed: set<string>,
                gh: map<Key, Row>, filter: string, unitFiles: seq<string>, vs: seq<Verdict>, inspect: Key -> Inspection)
    requires Listing(queried, api, rows, failed) && Indexes(gh, rows, filter)
    requires var ks := Keys(RUNNER_PREFIX, unitFiles, cfgOrgs, filter);
      var listedOK := set o | o in cfgOrgs && o !in failed;
      |vs| == |ks| && forall i :: 0 <= i < |vs| ==> vs[i] == PersistentVerdict(ks[i], gh, listedOK, inspect(ks[i]))
    ensures var ks := Keys(RUNNER_PREFIX, unitFiles, cfgOrgs, filter);
      forall i :: 0 <= i < |ks| ==> Fair(vs[i], ks[i], queried, api, inspect(ks[i]))
  {
    var ks := Keys(RUNNER_PREFIX, unitFiles, cfgOrgs, filter);
    KeysConfigured(RUNNER_PREFIX, unitFiles, cfgOrgs, filter);
    forall i | 0 <= i < |ks| ensures Fair(vs[i], ks[i], queried, api, inspect(ks[i])) {
      assert ks[i] in ks;
      VerdictFair(cfgOrgs, queried, api, rows, failed, gh, filter, ks[i], inspect(ks[i]));
    }
  }

  lemma KeysConfigured(prefix: string, units: seq<string>, orgs: seq<string>, filter: string)
    ensures forall k :: k in Keys(prefix, units, orgs, filter) ==> k.0 in orgs && InScope(filter, k.0)
  {
    KeysAre(prefix, units, orgs, filter);
    forall k | k in Keys(prefix, units, orgs, filter) ensures k.0 in orgs {
      var i :| 0 <= i < |units| && Parsed(prefix, units[i], orgs) == Some(k);
      FirstClaimFound(Middle(prefix, units[i]), orgs, 0);
    }
  }

  ghost predicate Answered(queried: seq<string>, api: Api, org: string) {
    org in queried && api(org).Some?
  }

  ghost predicate HasRunner(api: Api, k: Key)
    requires api(k.0).Some?
  {
    exists x :: x in api(k.0).value && x.name == k.1
  }

  /** A unit is classed an orphan, and so removed by a fix, exactly when GitHub answered for
      its org without such a runner, or when its org was missing from the configuration the
      listing was made with. A failed listing alone never does it. */
  lemma OrphanIff(cfgOrgs: seq<string>, queried: seq<string>, api: Api, rows: seq<Row>, failed: set<string>,
                  gh: map<Key, Row>, filter: string, k: Key, insp: Inspection)
    requires Listing(queried, api, rows, failed) && k.0 in cfgOrgs && InScope(filter, k.0)
    requires Indexes(gh, rows, filter)
    ensures var listedOK := set o | o in cfgOrgs && o !in failed;
      PersistentVerdict(k, gh, listedOK, insp).class_.OrphanUnit? <==>
        k.0 !in queried || (api(k.0).Some? && !HasRunner(api, k))
  {
    InIndexIff(queried, api, rows, failed, gh, filter, k);
  }

  /** The second ground is reached by a configuration reloaded between the two reads: an org
      it removed was not asked, and each of its units is classed an orphan, whatever GitHub
      would have answered. */
  lemma RemovedOrgIsOrphaned(org: string, name: string, api: Api, insp: Inspection)
    ensures Listing([], api, [], {}) && Indexes(map[], [], "")
    ensures PersistentVerdict((org, name), map[], {org}, insp).class_.OrphanUnit?
  {}

  /** An org it added is not in the configuration the units are parsed with, and has none. */
  lemma AddedOrgIsLeftAlone(cfgOrgs: seq<string>, org: string, units: seq<string>, filter: string)
    requires org !in cfgOrgs
    ensures forall k :: k in Keys(RUNNER_PREFIX, units, cfgOrgs, filter) ==> k.0 != org
  {
    KeysConfigured(RUNNER_PREFIX, units, cfgOrgs, filter);
  }

  lemma InIndexIff(queried: seq<string>, api: Api, rows: seq<Row>, failed: set<string>, gh: map<Key, Row>,
                   filter: string, k: Key)
    requires Listing(queried, api, rows, failed) && InScope(filter, k.0)
    requires Indexes(gh, rows, filter)
    ensures k in gh <==> Answered(queried, api, k.0) && HasRunner(api, k)
  {
    if k in gh {
      assert gh[k].runner in api(k.0).value;
    }
    if Answered(queried, api, k.0) && HasRunner(api, k) {
      var x :| x in api(k.0).value && x.name == k.1;
      var i :| 0 <= i < |rows| && rows[i].org == k.0 && rows[i].runner == x;
      assert rows[i] in rows && rows[i].Key() == k;
    }
  }

  lemma VerdictFair(cfgOrgs: seq<string>, queried: seq<string>, api: Api, rows: seq<Row>, failed: set<string>,
                    gh: map<Key, Row>, filter: string, k: Key, insp: Inspection)
    requires Listing(queried, api, rows, failed) && k.0 in cfgOrgs && InScope(filter, k.0)
    requires Indexes(gh, rows, filter)
    ensures var listedOK := set o | o in cfgOrgs && o !in failed;
      Fair(PersistentVerdict(k, gh, listedOK, insp), k, queried, api, insp)
  {
    InIndexIff(queried, api, rows, failed, gh, filter, k);
    if k in gh {
      assert gh[k].runner in api(k.0).value;
    }
  }

  // ---------------------------------------------------------------- the pass on a host

  class Host {
    var units: set<Key>                  // persistent units installed here
    var rewritten: set<Key>              // units whose drop-in was rewritten and that were restarted
    var registered: set<(string, int)>   // live registrations on GitHub

    /** repairRunner. */
    method RepairRunner(v: Verdict, apply: bool, fate: Fate) returns (w: Verdict)
      requires v.fix.NoFix?
      modifies this`units, this`rewritten
      ensures w.(fix := NoFix) == v.(fix := NoFix)
      ensures units == if apply && v.class_.OrphanUnit? && !v.busy && !fate.FailedEarly?
                       then old(units) - {v.key} else old(units)
      ensures rewritten == if apply && Rewrites(v.class_) && !v.busy && !fate.FailedEarly?
                           then old(rewritten) + {v.key} else old(rewritten)
      ensures w.fix == DidRemove <==> apply && v.class_.OrphanUnit? && !v.busy && fate.Done?
      ensures w.fix == DidRefresh <==> apply && Rewrites(v.class_) && !v.busy && fate.Done?
      ensures w.fix == FixFailed <==> apply && (v.class_.OrphanUnit? || Rewrites(v.class_)) && !v.busy && !fate.Done?
      ensures w.fix == WouldRemove <==> !apply && v.class_.OrphanUnit? && !v.busy
      ensures w.fix == WouldRefresh <==> !apply && Rewrites(v.class_) && !v.busy
      ensures w.fix == SkippedBusy <==> (v.class_.OrphanUnit? || Rewrites(v.class_)) && v.busy
      ensures !v.class_.OrphanUnit? && !Rewrites(v.class_) ==>
                w.fix == if v.class_.DropInNewer? || v.class_.EphemeralNewer? then SkippedNewer else v.fix
    {
      match v.class_
      case OrphanUnit =>
        if v.busy { return v.(fix := SkippedBusy); }
        if !apply { return v.(fix := WouldRemove); }
        if !fate.FailedEarly? { units := units - {v.key}; }
        w := v.(fix := if fate.Done? then DidRemove else FixFailed);
      case StaleDropIn | Stuck =>
        if v.busy { return v.(fix := SkippedBusy); }
        if !apply { return v.(fix := WouldRefresh); }
        if !fate.FailedEarly? { rewritten := rewritten + {v.key}; }
        w := v.(fix := if fate.Done? then DidRefresh else FixFailed);
      case DropInNewer | EphemeralNewer =>
        w := v.(fix := SkippedNewer);
      case _ =>
        w := v;
    }

    method RepairAll(vs: seq<Verdict>, apply: bool, fate: Key -> Fate) returns (ws: seq<Verdict>)
      requires forall v :: v in vs ==> v.fix.NoFix?
      modifies this`units, this`rewritten
      ensures |ws| == |vs| && forall i :: 0 <= i < |vs| ==> ws[i].(fix := NoFix) == vs[i].(fix := NoFix)
      ensures Truthful(ws, units, rewritten) && (apply ==> CarriedOut(ws, fate, units, rewritten))
      ensures !apply ==> units == old(units) && rewritten == old(rewritten)
      ensures units <= old(units) && old(rewritten) <= rewritten
      ensures forall k :: k in old(units) - units ==> OrphanAmong(vs, k)
      ensures forall k :: k in rewritten - old(rewritten) ==> RewriteAmong(vs, k)
    {
      ws := [];
      for i := 0 to |vs|
        invariant |ws| == i && forall j :: 0 <= j < i ==> ws[j].(fix := NoFix) == vs[j].(fix := NoFix)
        invariant Truthful(ws, units, rewritten) && (apply ==> CarriedOut(ws, fate, units, rewritten))
        invariant !apply ==> units == old(units) && rewritten == old(rewritten)
        invariant units <= old(units) && old(rewritten) <= rewritten
        invariant forall k :: k in old(units) - units ==> OrphanAmong(vs, k)
        invariant forall k :: k in rewritten - old(rewritten) ==> RewriteAmong(vs, k)
      {
        assert vs[i] in vs;
        assert vs[i].class_.OrphanUnit? ==> OrphanAmong(vs, vs[i].key);
        assert Rewrites(vs[i].class_) && !vs[i].busy ==> RewriteAmong(vs, vs[i].key);
        var w := RepairRunner(vs[i], apply, fate(vs[i].key));
        assert w.key == w.(fix := NoFix).key && w.class_ == w.(fix := NoFix).class_ && w.busy == w.(fix := NoFix).busy;
        ws := ws + [w];
      }
    }

    /** The GitHub rows without a unit here: reap what is abandoned, report the rest. */
    method JudgeStrays(rows: seq<Row>, filter: string, seen: set<Key>, reap: bool, dryRun: bool,
                       lanes: map<Key, LaneView>, refused: int -> bool)
      returns (vs: seq<Verdict>, reaped: seq<Row>)
      modifies this`registered
      ensures Swept(rows, filter, seen, reap, dryRun, lanes, refused, old(registered), registered, reaped)
      ensures vs == Collect(rows, StrayAt(filter, seen))
      ensures forall v :: v in vs ==> v.class_.OrphanGitHub? && v.fix.NoFix?
    {
      vs, reaped := [], [];
      for i := 0 to |rows|
        invariant Swept(rows[..i], filter, seen, reap, dryRun, lanes, refused, old(registered), registered, reaped)
        invariant vs == Collect(rows[..i], StrayAt(filter, seen))
      {
        var row := rows[i];
        CollectNext(rows, i, StrayAt(filter, seen));
        assert rows[..i + 1] == rows[..i] + [row];
        if !InScope(filter, row.org) || row.Key() in seen {
        } else if IsEphemeralName(row.runner.name) {
          var goes := false;
          if reap && !row.runner.online && !row.runner.busy {
            goes := MaybeReapGhost(row, lanes);
          }
          ghost var was, had := registered, reaped;
          if goes {
            reaped := reaped + [row];
            if !dryRun && !refused(row.runner.id) {
              registered := registered - {(row.org, row.runner.id)};
            }
          }
          SweptNext(rows[..i], row, filter, seen, reap, dryRun, lanes, refused, old(registered), was, had, goes);
        } else if !(row.runner.online && !row.local) {
          vs := vs + [Verdict(row.Key(), OrphanGitHub, true, row.runner.online, row.runner.busy, NoFix)];
        }
      }
      assert rows[..|rows|] == rows;
      StraysAre(rows, filter, seen);
    }

    /** A whole pass. `cfgOrgs` is the configuration the pass classifies against, `queried`
        the one the listing was made with: each is read on its own, and a reload can fall
        between. */
    method Reconcile(cfgOrgs: seq<string>, queried: seq<string>, api: Api, local: Key -> bool,
                     unitFiles: seq<string>, laneFiles: seq<string>,
                     inspect: Key -> Inspection, inspectLane: Key -> LaneInspection, lanes: map<Key, LaneView>,
                     fix: bool, reap: bool, filter: string, dryRun: bool,
                     fate: Key -> Fate, refused: int -> bool)
      returns (report: seq<Verdict>, reaped: seq<Row>, ghost rows: seq<Row>,
               ghost orgs: seq<string>, ghost judged: seq<Verdict>, ghost place: seq<nat>)
      modifies this
      // the orgs of the configuration, longest first
      ensures LongestFirst(orgs) && forall o :: o in orgs <==> o in cfgOrgs
      // nothing happens under dry-run, and GitHub is only touched by a reap
      ensures dryRun || !fix ==> units == old(units) && rewritten == old(rewritten)
      ensures dryRun || !reap ==> registered == old(registered)
      // the rows are what GitHub answered
      ensures AllRows(queried, api, rows) && OnlyRows(queried, api, rows)
      // exactly one verdict for every unit in scope, from its inspection and GitHub's answer
      ensures Judged(judged, Keys(RUNNER_PREFIX, unitFiles, orgs, filter),
                     Keys(EPHEMERAL_PREFIX, laneFiles, orgs, filter), queried, api, inspect, inspectLane)
      // a sorted report of these, and of nothing else but GitHub runners without a unit
      ensures Filed(judged, report, place) && InOrder(report)
      // the fixes reported as done are, and all that are due take effect
      ensures Truthful(report, units, rewritten) && (fix && !dryRun ==> CarriedOut(report, fate, units, rewritten))
      // a removed unit: GitHub answered for its org and knows no such runner, or was not asked
      ensures units <= old(units)
      ensures forall k :: k in old(units) - units ==>
                k in Keys(RUNNER_PREFIX, unitFiles, orgs, filter) &&
                (k.0 in queried ==> api(k.0).Some? && !HasRunner(api, k))
      // a refreshed unit: registered, not busy, not found newer than this binary
      ensures forall k :: k in rewritten - old(rewritten) ==>
                !inspect(k).dropInNewer && HasIdle(api, k)
      // under a reap every abandoned registration listed is taken, and deleted unless GitHub refuses
      ensures reap ==> AllTaken(queried, api, filter, Keys(RUNNER_PREFIX, unitFiles, orgs, filter), lanes, reaped)
      // a reap pass over the rows, and what it does to GitHub
      ensures Swept(rows, filter, Elements(Keys(RUNNER_PREFIX, unitFiles, orgs, filter)), reap, dryRun, lanes,
                    refused, old(registered), registered, reaped)
    {
      var listed, vs, seen;
      listed, vs, seen, orgs :=
        Assess(cfgOrgs, queried, api, local, filter, unitFiles, laneFiles, inspect, inspectLane);
      rows, judged := listed, vs;
      assert seen == Elements(Keys(RUNNER_PREFIX, unitFiles, orgs, filter));
      var strays;
      strays, reaped := JudgeStrays(listed, filter, seen, reap, dryRun, lanes, refused);
      if reap {
        Taken(queried, api, filter, Keys(RUNNER_PREFIX, unitFiles, orgs, filter), lanes, rows, reaped);
      }
      report, place := Finish(vs, strays, fix, dryRun, fate);
    }

    /** The pass from the sorting of the report on. */
    method Finish(judged: seq<Verdict>, strays: seq<Verdict>, fix: bool, dryRun: bool, fate: Key -> Fate)
      returns (report: seq<Verdict>, ghost place: seq<nat>)
      requires forall v :: v in strays ==> v.class_.OrphanGitHub? && v.fix.NoFix?
      requires forall v :: v in judged ==> v.fix.NoFix?
      modifies this`units, this`rewritten
      ensures Filed(judged, report, place) && InOrder(report) && Truthful(report, units, rewritten)
      ensures fix && !dryRun ==> CarriedOut(report, fate, units, rewritten)
      ensures dryRun || !fix ==> units == old(units) && rewritten == old(rewritten)
      ensures units <= old(units) && old(rewritten) <= rewritten
      ensures forall k :: k in old(units) - units ==> OrphanAmong(judged, k)
      ensures forall k :: k in rewritten - old(rewritten) ==> RewriteAmong(judged, k)
    {
      report, place := SortReport(judged, strays);
      if fix {
        ghost var before := report;
        report := RepairAll(report, !dryRun, fate);
        FiledRepaired(judged, before, report, place);
      }
    }
  }
}
