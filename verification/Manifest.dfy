/** state.json: what srm installed, one record a runner or slot, kept in a slice. */
module Manifest {
  import opened Options
  import opened Text

  datatype Key = Key(kind: string, org: string, name: string)

  datatype RunnerRecord = RunnerRecord(
    key: Key,
    githubId: int,             // 0 = unknown
    agentVersion: string,      // "" = unknown
    previousVersion: string,
    templateVersion: nat,
    configuredAt: string,
    lastUpgradeAt: string)

  function Blank(key: Key): RunnerRecord {
    RunnerRecord(key, 0, "", "", 0, "", "")
  }

  // ---------------------------------------------------------------- the slice as a value

  function Others(k: Key): RunnerRecord -> bool {
    (r: RunnerRecord) => r.key != k
  }

  /** The first record of a key. */
  function Find(rs: seq<RunnerRecord>, k: Key): (r: Option<RunnerRecord>)
    ensures r.Some? ==> r.value in rs && r.value.key == k
    ensures r.None? ==> forall x :: x in rs ==> x.key != k
  {
    if rs == [] then None
    else if rs[0].key == k then Some(rs[0])
    else Find(rs[1..], k)
  }

  function WithPut(rs: seq<RunnerRecord>, r: RunnerRecord): seq<RunnerRecord> {
    if rs == [] then [r]
    else if rs[0].key == r.key then [r] + rs[1..]
    else [rs[0]] + WithPut(rs[1..], r)
  }

  function Without(rs: seq<RunnerRecord>, k: Key): seq<RunnerRecord> {
    Filter(rs, Others(k))
  }

  ghost predicate Unique(rs: seq<RunnerRecord>) {
    forall i, j :: 0 <= i < j < |rs| ==> rs[i].key != rs[j].key
  }

  ghost function Keys(rs: seq<RunnerRecord>): set<Key> {
    set r | r in rs :: r.key
  }

  /** The map a slice stands for. */
  ghost function View(rs: seq<RunnerRecord>): map<Key, RunnerRecord> {
    map k | k in Keys(rs) :: Find(rs, k).value
  }

  /** Put updates the map at one key, whatever the slice, even with repeated keys. */
  lemma {:induction false} FindPut(rs: seq<RunnerRecord>, r: RunnerRecord, k: Key)
    ensures Find(WithPut(rs, r), k) == if k == r.key then Some(r) else Find(rs, k)
  {
    if rs == [] {
    } else {
      FindPut(rs[1..], r, k);
      if rs[0].key == r.key {
        assert ([r] + rs[1..])[1..] == rs[1..];
      } else {
        assert ([rs[0]] + WithPut(rs[1..], r))[1..] == WithPut(rs[1..], r);
      }
    }
  }

  lemma {:induction false} FindWithout(rs: seq<RunnerRecord>, gone: Key, k: Key)
    ensures Find(Without(rs, gone), k) == if k == gone then None else Find(rs, k)
  {
    if rs == [] {
    } else {
      FindWithout(rs[1..], gone, k);
      var rest := Without(rs[1..], gone);
      if rs[0].key == gone {
        assert Without(rs, gone) == rest;
      } else {
        assert ([rs[0]] + rest)[1..] == rest;
      }
    }
  }

  /** Put leaves the other records as they are and in order. */
  lemma {:induction false} PutKeepsOthers(rs: seq<RunnerRecord>, r: RunnerRecord)
    ensures Without(WithPut(rs, r), r.key) == Without(rs, r.key)
    ensures |WithPut(rs, r)| == if Find(rs, r.key).Some? then |rs| else |rs| + 1
  {
    if rs == [] {
      FilterCons(r, rs, Others(r.key));
      assert [r] + rs == [r];
    } else {
      PutKeepsOthers(rs[1..], r);
      var keep := Others(r.key);
      FilterCons(rs[0], rs[1..], keep);
      assert [rs[0]] + rs[1..] == rs;
      if rs[0].key == r.key {
        FilterCons(r, rs[1..], keep);
      } else {
        FilterCons(rs[0], WithPut(rs[1..], r), keep);
      }
    }
  }

  /** Put writes over the first record of the key, in its place, or else goes last. */
  lemma {:induction false} PutAt(rs: seq<RunnerRecord>, r: RunnerRecord, i: nat)
    requires i <= |rs| && forall j :: 0 <= j < i ==> rs[j].key != r.key
    requires i == |rs| || rs[i].key == r.key
    ensures WithPut(rs, r) == rs[..i] + [r] + rs[if i == |rs| then i else i + 1..]
  {
    if i == 0 {
    } else {
      PutAt(rs[1..], r, i - 1);
      assert rs[1..][..i - 1] == rs[1..i];
      assert rs[..i] == [rs[0]] + rs[1..i];
    }
  }

  lemma PutKeys(rs: seq<RunnerRecord>, r: RunnerRecord)
    ensures Keys(WithPut(rs, r)) == Keys(rs) + {r.key}
  {
    forall k ensures k in Keys(WithPut(rs, r)) <==> k in Keys(rs) + {r.key} {
      FindPut(rs, r, k);
      KeyIffFound(rs, k);
      KeyIffFound(WithPut(rs, r), k);
    }
  }

  lemma KeyIffFound(rs: seq<RunnerRecord>, k: Key)
    ensures k in Keys(rs) <==> Find(rs, k).Some?
  {}

  lemma UniqueCons(x: RunnerRecord, rs: seq<RunnerRecord>)
    requires Unique(rs) && forall y :: y in rs ==> y.key != x.key
    ensures Unique([x] + rs)
  {
    var all := [x] + rs;
    forall i, j | 0 <= i < j < |all| ensures all[i].key != all[j].key {
      assert all[j] == rs[j - 1] && all[j] in rs;
    }
  }

  lemma {:induction false} PutUnique(rs: seq<RunnerRecord>, r: RunnerRecord)
    requires Unique(rs)
    ensures Unique(WithPut(rs, r))
  {
    if rs == [] {
    } else {
      var rest := rs[1..];
      assert rs == [rs[0]] + rest && forall x :: x in rest ==> x.key != rs[0].key;
      PutUnique(rest, r);
      PutKeys(rest, r);
      if rs[0].key == r.key {
        UniqueCons(r, rest);
      } else {
        forall y | y in WithPut(rest, r) ensures y.key != rs[0].key { assert y.key in Keys(WithPut(rest, r)); }
        UniqueCons(rs[0], WithPut(rest, r));
      }
    }
  }

  lemma {:induction false} WithoutUnique(rs: seq<RunnerRecord>, gone: Key)
    requires Unique(rs)
    ensures Unique(Without(rs, gone))
    ensures forall x :: x in Without(rs, gone) <==> x in rs && x.key != gone
  {
    FilterSound(rs, Others(gone));
    if rs == [] {
    } else {
      WithoutUnique(rs[1..], gone);
      FilterSound(rs[1..], Others(gone));
      var rest := Without(rs[1..], gone);
      if rs[0].key == gone {
        assert Without(rs, gone) == rest;
      } else {
        assert Without(rs, gone) == [rs[0]] + rest;
        forall x | x in rest ensures x.key != rs[0].key {
          var j :| 0 <= j < |rs[1..]| && rs[1..][j] == x;
          assert rs[j + 1] == x;
        }
      }
    }
  }

  // ---------------------------------------------------------------- histories

  /** What the callers do to the manifest. Upgrade edits the record it finds, or a blank one. */
  datatype Op =
    | Create(rec: RunnerRecord, now: string)
    | Upgrade(key: Key, to: string, id: int, now: string)
    | Forget(key: Key)

  const TEMPLATE_VERSION: nat := 1

  /** recordCreated: the first creation time of a key stays. */
  function Stamped(prev: Option<RunnerRecord>, rec: RunnerRecord, now: string): RunnerRecord {
    if prev.Some? && prev.value.configuredAt != "" then rec.(configuredAt := prev.value.configuredAt)
    else if rec.configuredAt == "" then rec.(configuredAt := now)
    else rec
  }

  /** The record of a runner upgraded to a version; an unknown id is filled in. */
  function Bumped(prev: Option<RunnerRecord>, key: Key, to: string, id: int, now: string): RunnerRecord {
    var r := if prev.Some? then prev.value else Blank(key);
    r.(agentVersion := to, previousVersion := r.agentVersion, templateVersion := TEMPLATE_VERSION,
       lastUpgradeAt := now, githubId := if r.githubId == 0 then id else r.githubId)
  }

  function Apply(rs: seq<RunnerRecord>, op: Op): seq<RunnerRecord> {
    match op
    case Create(rec, now) => WithPut(rs, Stamped(Find(rs, rec.key), rec, now))
    case Upgrade(key, to, id, now) => WithPut(rs, Bumped(Find(rs, key), key, to, id, now))
    case Forget(key) => Without(rs, key)
  }

  function ApplyAll(rs: seq<RunnerRecord>, ops: seq<Op>): seq<RunnerRecord>
    decreases |ops|
  {
    if ops == [] then rs else ApplyAll(Apply(rs, ops[0]), ops[1..])
  }

  function Lookup(m: map<Key, RunnerRecord>, k: Key): Option<RunnerRecord> {
    if k in m then Some(m[k]) else None
  }

  /** The same operations on a map. */
  function MapApply(m: map<Key, RunnerRecord>, op: Op): map<Key, RunnerRecord> {
    match op
    case Create(rec, now) => m[rec.key := Stamped(Lookup(m, rec.key), rec, now)]
    case Upgrade(key, to, id, now) => m[key := Bumped(Lookup(m, key), key, to, id, now)]
    case Forget(key) => m - {key}
  }

  function MapApplyAll(m: map<Key, RunnerRecord>, ops: seq<Op>): map<Key, RunnerRecord>
    decreases |ops|
  {
    if ops == [] then m else MapApplyAll(MapApply(m, ops[0]), ops[1..])
  }

  lemma ViewLookup(rs: seq<RunnerRecord>, k: Key)
    ensures Lookup(View(rs), k) == Find(rs, k)
    ensures k in View(rs) <==> Find(rs, k).Some?
  {}

  lemma SameLookups(a: map<Key, RunnerRecord>, b: map<Key, RunnerRecord>)
    requires forall k :: Lookup(a, k) == Lookup(b, k)
    ensures a == b
  {
    assert forall k :: k in a <==> Lookup(a, k).Some?;
    assert forall k :: k in b <==> Lookup(b, k).Some?;
    assert forall k :: k in a ==> Lookup(a, k) == Some(a[k]);
  }

  lemma PutRefines(rs: seq<RunnerRecord>, r: RunnerRecord)
    ensures View(WithPut(rs, r)) == View(rs)[r.key := r]
  {
    forall k ensures Lookup(View(WithPut(rs, r)), k) == Lookup(View(rs)[r.key := r], k) {
      ViewLookup(WithPut(rs, r), k);
      ViewLookup(rs, k);
      FindPut(rs, r, k);
    }
    SameLookups(View(WithPut(rs, r)), View(rs)[r.key := r]);
  }

  lemma WithoutRefines(rs: seq<RunnerRecord>, key: Key)
    ensures View(Without(rs, key)) == View(rs) - {key}
  {
    forall k ensures Lookup(View(Without(rs, key)), k) == Lookup(View(rs) - {key}, k) {
      ViewLookup(Without(rs, key), k);
      ViewLookup(rs, k);
      FindWithout(rs, key, k);
    }
    SameLookups(View(Without(rs, key)), View(rs) - {key});
  }

  lemma ApplyRefines(rs: seq<RunnerRecord>, op: Op)
    ensures View(Apply(rs, op)) == MapApply(View(rs), op)
  {
    match op
    case Create(rec, now) =>
      ViewLookup(rs, rec.key);
      PutRefines(rs, Stamped(Find(rs, rec.key), rec, now));
    case Upgrade(key, to, id, now) =>
      ViewLookup(rs, key);
      PutRefines(rs, Bumped(Find(rs, key), key, to, id, now));
    case Forget(key) =>
      WithoutRefines(rs, key);
  }

  /** Over any history, from any slice, the manifest is the map; a slice without repeated
      keys never gets any. */
  lemma {:induction false} HistoryRefinesMap(rs: seq<RunnerRecord>, ops: seq<Op>)
    ensures View(ApplyAll(rs, ops)) == MapApplyAll(View(rs), ops)
    ensures Unique(rs) ==> Unique(ApplyAll(rs, ops))
    decreases |ops|
  {
    if ops == [] {
    } else {
      ApplyRefines(rs, ops[0]);
      HistoryRefinesMap(Apply(rs, ops[0]), ops[1..]);
      if Unique(rs) {
        match ops[0]
        case Create(rec, now) => PutUnique(rs, Stamped(Find(rs, rec.key), rec, now));
        case Upgrade(key, to, id, now) => PutUnique(rs, Bumped(Find(rs, key), key, to, id, now));
        case Forget(key) => WithoutUnique(rs, key);
      }
    }
  }

  /** A creation time, once there, survives every history that does not forget the key. */
  lemma {:induction false} FirstCreationKept(rs: seq<RunnerRecord>, ops: seq<Op>, k: Key)
    requires Find(rs, k).Some? && Find(rs, k).value.configuredAt != ""
    requires forall op :: op in ops ==> op != Forget(k)
    ensures Find(ApplyAll(rs, ops), k).Some?
    ensures Find(ApplyAll(rs, ops), k).value.configuredAt == Find(rs, k).value.configuredAt
    decreases |ops|
  {
    if ops == [] {
    } else {
      var next := Apply(rs, ops[0]);
      match ops[0] {
        case Create(rec, now) => FindPut(rs, Stamped(Find(rs, rec.key), rec, now), k);
        case Upgrade(key, to, id, now) => FindPut(rs, Bumped(Find(rs, key), key, to, id, now), k);
        case Forget(key) =>
          assert ops[0] in ops;
          FindWithout(rs, key, k);
      }
      assert forall op :: op in ops[1..] ==> op in ops;
      FirstCreationKept(next, ops[1..], k);
    }
  }

  // ---------------------------------------------------------------- the slice in memory

  class StateManifest {
    var runners: array<RunnerRecord>
    var len: nat

    ghost predicate Valid()
      reads this
    {
      len <= runners.Length
    }

    ghost function Contents(): seq<RunnerRecord>
      reads this, runners
      requires Valid()
    {
      runners[..len]
    }

    constructor ()
      ensures Valid() && fresh(runners) && Contents() == []
    {
      runners, len := new RunnerRecord[0], 0;
    }

    method Get(key: Key) returns (r: Option<RunnerRecord>)
      requires Valid()
      ensures r == Find(Contents(), key)
    {
      for i := 0 to len
        invariant Find(runners[..len], key) == Find(runners[i..len], key)
      {
        if runners[i].key == key {
          return Some(runners[i]);
        }
      }
      r := None;
    }

    method Put(r: RunnerRecord)
      requires Valid()
      modifies this, runners
      ensures Valid() && (runners == old(runners) || fresh(runners))
      ensures Contents() == WithPut(old(Contents()), r)
    {
      ghost var was := Contents();
      for i := 0 to len
        invariant forall j :: 0 <= j < i ==> runners[j].key != r.key
      {
        if runners[i].key == r.key {
          PutAt(was, r, i);
          runners[i] := r;
          return;
        }
      }
      PutAt(was, r, len);
      Append(r);
    }

    /** Go's append: in place while there is room. */
    method Append(r: RunnerRecord)
      requires Valid()
      modifies this, runners
      ensures Valid() && (runners == old(runners) || fresh(runners))
      ensures Contents() == old(Contents()) + [r]
    {
      if len == runners.Length {
        var wider := new RunnerRecord[2 * len + 1](_ => r);
        for i := 0 to len
          modifies wider
          invariant runners == old(runners) && runners[..] == old(runners[..])
          invariant wider[..i] == runners[..i]
        {
          wider[i] := runners[i];
        }
        runners := wider;
      }
      runners[len] := r;
      len := len + 1;
    }

    method Remove(key: Key)
      requires Valid()
      modifies this, runners
      ensures Valid() && runners == old(runners)
      ensures Contents() == Without(old(Contents()), key)
    {
      len := Compact(runners, len, Others(key));
    }

    method RecordCreated(rec: RunnerRecord, now: string)
      requires Valid()
      modifies this, runners
      ensures Valid() && (runners == old(runners) || fresh(runners))
      ensures Contents() == Apply(old(Contents()), Create(rec, now))
    {
      var stamped := rec;
      var prev := Get(rec.key);
      if prev.Some? && prev.value.configuredAt != "" {
        stamped := rec.(configuredAt := prev.value.configuredAt);
      } else if rec.configuredAt == "" {
        stamped := rec.(configuredAt := now);
      }
      Put(stamped);
    }
  }
}
