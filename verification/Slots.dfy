/** Additive slot creation: which ids are taken, which come next, and what creation touches. */
module Slots {
  import opened Text
  import opened Options
  import opened UnitNames

  /** The slot id a unit of the org takes; a slot that is no number is not srm's. */
  function SlotAt(orgs: seq<string>, org: string): string -> seq<int> {
    (svc: string) =>
      var p := Parsed(EPHEMERAL_PREFIX, svc, orgs);
      if p.Some? && p.value.0 == org && Atoi(p.value.1).Good? then [Atoi(p.value.1).value] else []
  }

  /** The slot ids taken by an org's units. */
  function Taken(units: seq<string>, orgs: seq<string>, org: string): set<int> {
    Elements(Collect(units, SlotAt(orgs, org)))
  }

  function Elements(ids: seq<int>): set<int> {
    set id | id in ids
  }

  lemma TakenNext(units: seq<string>, i: nat, orgs: seq<string>, org: string)
    requires i < |units|
    ensures Taken(units[..i + 1], orgs, org) == Taken(units[..i], orgs, org) + Elements(SlotAt(orgs, org)(units[i]))
  {
    CollectNext(units, i, SlotAt(orgs, org));
  }

  method ParseSlot(svc: string, orgs: seq<string>, org: string) returns (ids: set<int>)
    ensures ids == Elements(SlotAt(orgs, org)(svc))
  {
    ids := {};
    var p := ParseUnit(EPHEMERAL_PREFIX, svc, orgs);
    if p.Some? && p.value.0 == org {
      match Atoi(p.value.1)
      case Good(n) => ids := {n};
      case _ =>
    }
  }

  /** The same orgs, longest first: what the parsers are given. */
  ghost predicate ForParsing(sorted: seq<string>, orgs: seq<string>) {
    LongestFirst(sorted) && forall o :: o in sorted <==> o in orgs
  }

  ghost predicate IsOccupied(occupied: set<int>, units: seq<string>, orgs: seq<string>, org: string) {
    exists sorted :: ForParsing(sorted, orgs) && occupied == Taken(units, sorted, org)
  }

  lemma OccupiedUnique(a: set<int>, b: set<int>, units: seq<string>, orgs: seq<string>, org: string)
    requires IsOccupied(a, units, orgs, org) && IsOccupied(b, units, orgs, org)
    ensures a == b
  {
    var x :| ForParsing(x, orgs) && a == Taken(units, x, org);
    var y :| ForParsing(y, orgs) && b == Taken(units, y, org);
    TakenAlike(units, x, y, orgs, org);
  }

  lemma TakenAlike(units: seq<string>, a: seq<string>, b: seq<string>, orgs: seq<string>, org: string)
    requires ForParsing(a, orgs) && ForParsing(b, orgs)
    ensures Taken(units, a, org) == Taken(units, b, org)
  {
    forall i | 0 <= i < |units| ensures SlotAt(a, org)(units[i]) == SlotAt(b, org)(units[i]) {
      AnyOrderParsesAlike(EPHEMERAL_PREFIX, units[i], a, b);
    }
    CollectAlike(units, SlotAt(a, org), SlotAt(b, org));
  }

  /** occupiedEphemeralSlots. */
  method OccupiedSlots(units: seq<string>, orgs: seq<string>, org: string) returns (occupied: set<int>)
    ensures IsOccupied(occupied, units, orgs, org) && |occupied| <= |units|
  {
    var orgsByLen := ByLength(orgs);
    occupied := {};
    for i := 0 to |units|
      invariant occupied == Taken(units[..i], orgsByLen, org)
    {
      TakenNext(units, i, orgsByLen, org);
      var ids := ParseSlot(units[i], orgsByLen, org);
      occupied := occupied + ids;
    }
    assert units[..|units|] == units;
    TakenSize(units, orgsByLen, org);
    assert ForParsing(orgsByLen, orgs);
  }

  lemma {:induction false} CollectSize(units: seq<string>, f: string -> seq<int>)
    requires forall svc :: |f(svc)| <= 1
    ensures |Collect(units, f)| <= |units|
  {
    if units == [] {
    } else {
      CollectSize(units[1..], f);
    }
  }

  lemma {:induction false} ElementsSize(ids: seq<int>)
    ensures |Elements(ids)| <= |ids|
  {
    if ids == [] {
    } else {
      ElementsSize(ids[1..]);
      assert ids == [ids[0]] + ids[1..];
      assert Elements(ids) == {ids[0]} + Elements(ids[1..]);
    }
  }

  lemma TakenSize(units: seq<string>, orgs: seq<string>, org: string)
    ensures |Taken(units, orgs, org)| <= |units|
  {
    CollectSize(units, SlotAt(orgs, org));
    ElementsSize(Collect(units, SlotAt(orgs, org)));
  }

  lemma UnitIsTaken(units: seq<string>, orgs: seq<string>, org: string, id: nat)
    requires org in orgs && LongestFirst(orgs) && id <= MAX_INT
    requires UnitOf(org, Itoa(id)) in units
    ensures id in Taken(units, orgs, org)
  {
    AtoiItoa(id);
    ParsePrintedUnit(EPHEMERAL_PREFIX, org, Itoa(id), orgs);
    var i :| 0 <= i < |units| && units[i] == UnitOf(org, Itoa(id));
    assert id in SlotAt(orgs, org)(units[i]);
    CollectMember(units, SlotAt(orgs, org), id);
  }

  // ---------------------------------------------------------------- allocation

  /** The lowest free positive ids, in order, none skipped. */
  ghost predicate Lowest(ids: seq<nat>, occupied: set<int>) {
    && (forall i :: 0 <= i < |ids| ==> ids[i] >= 1 && ids[i] !in occupied)
    && (forall i, j :: 0 <= i < j < |ids| ==> ids[i] < ids[j])
    && (forall i, n :: 0 <= i < |ids| && 1 <= n < ids[i] ==> n in occupied || n in ids[..i])
  }

  /** Every id below `id` is chosen or taken. */
  ghost predicate Covers(ids: seq<nat>, occupied: set<int>, id: int) {
    (forall i :: 0 <= i < |ids| ==> ids[i] < id) && (forall n :: 1 <= n < id ==> n in occupied || n in ids)
  }

  lemma LowestExtends(ids: seq<nat>, occupied: set<int>, id: nat)
    requires id >= 1 && id !in occupied && Lowest(ids, occupied) && Covers(ids, occupied, id)
    ensures Lowest(ids + [id], occupied) && Covers(ids + [id], occupied, id + 1)
  {
    CoversMore(ids, occupied, id);
    var more := ids + [id];
    forall i, n | 0 <= i < |more| && 1 <= n < more[i] ensures n in occupied || n in more[..i] {
      if i < |ids| { assert more[..i] == ids[..i]; } else { assert more[..i] == ids; }
    }
  }

  lemma CoversMore(ids: seq<nat>, occupied: set<int>, id: nat)
    requires Covers(ids, occupied, id)
    ensures Covers(ids + [id], occupied, id + 1)
  {
    forall n | 1 <= n < id + 1 ensures n in occupied || n in ids + [id] {
      if n < id { assert n in occupied || n in ids; }
    }
  }

  function Strings(ids: seq<nat>): seq<string> {
    seq(|ids|, i requires 0 <= i < |ids| => Itoa(ids[i]))
  }

  function UnitOf(org: string, slot: string): string {
    UnitName(EPHEMERAL_PREFIX, org, slot)
  }

  function Below(occupied: set<int>, id: int): set<int> {
    set x | x in occupied && 1 <= x < id
  }

  lemma CoversOn(ids: seq<nat>, occupied: set<int>, id: nat)
    requires Covers(ids, occupied, id)
    ensures id in occupied ==> Covers(ids, occupied, id + 1)
  {}

  lemma StringsGrow(ids: seq<nat>, id: nat)
    ensures Strings(ids + [id]) == Strings(ids) + [Itoa(id)]
  {}

  /** How many taken ids are still to be met. */
  function Ahead(occupied: set<int>, id: int): nat {
    |occupied - Below(occupied, id)|
  }

  /** Everything below `id` is settled: chosen, or taken. */
  ghost predicate Settled(ids: seq<nat>, occupied: set<int>, id: int) {
    id >= 1 && Lowest(ids, occupied) && Covers(ids, occupied, id) && id - 1 == |ids| + |Below(occupied, id)|
  }

  lemma SettleNext(ids: seq<nat>, occupied: set<int>, id: int)
    requires Settled(ids, occupied, id)
    ensures if id in occupied then Settled(ids, occupied, id + 1) else Settled(ids + [id], occupied, id + 1)
    ensures id in occupied ==> Ahead(occupied, id + 1) < Ahead(occupied, id)
  {
    BelowStep(occupied, id);
    if id in occupied {
      CoversOn(ids, occupied, id);
    } else {
      LowestExtends(ids, occupied, id);
    }
  }

  lemma SettledDense(ids: seq<nat>, occupied: set<int>, id: int)
    requires Settled(ids, occupied, id)
    ensures forall i :: 0 <= i < |ids| ==> ids[i] <= |ids| + |occupied|
  {
    SubsetSize(Below(occupied, id), occupied);
  }

  /** The answer for a count. Ids stay dense: none is larger than the number of ids in use. */
  ghost predicate Allocated(ids: seq<nat>, occupied: set<int>, count: nat) {
    && |ids| == count && Lowest(ids, occupied)
    && forall i :: 0 <= i < count ==> ids[i] <= count + |occupied|
  }

  ghost predicate LowestFree(slots: seq<string>, occupied: set<int>, count: nat) {
    exists ids :: Allocated(ids, occupied, count) && slots == Strings(ids)
  }

  /** allocateEphemeralSlots. */
  method AllocateSlots(occupied: set<int>, count: nat) returns (slots: seq<string>)
    ensures LowestFree(slots, occupied, count)
  {
    slots := [];
    ghost var ids: seq<nat> := [];
    var id := 1;
    while |slots| < count
      invariant |ids| == |slots| <= count && slots == Strings(ids)
      invariant Settled(ids, occupied, id)
      decreases count - |slots|, Ahead(occupied, id)
    {
      SettleNext(ids, occupied, id);
      if id !in occupied {
        StringsGrow(ids, id);
        slots, ids := slots + [Itoa(id)], ids + [id];
      }
      id := id + 1;
    }
    SettledDone(ids, occupied, id, slots, count);
  }

  lemma SettledDone(ids: seq<nat>, occupied: set<int>, id: int, slots: seq<string>, count: nat)
    requires Settled(ids, occupied, id) && |ids| == count && slots == Strings(ids)
    ensures LowestFree(slots, occupied, count)
  {
    SettledDense(ids, occupied, id);
    assert Allocated(ids, occupied, count);
  }

  lemma BelowStep(occupied: set<int>, id: int)
    requires id >= 1
    ensures |Below(occupied, id + 1)| == |Below(occupied, id)| + if id in occupied then 1 else 0
    ensures id in occupied ==> |occupied - Below(occupied, id + 1)| < |occupied - Below(occupied, id)|
  {
    if id in occupied {
      assert Below(occupied, id + 1) == Below(occupied, id) + {id};
      assert occupied - Below(occupied, id + 1) == (occupied - Below(occupied, id)) - {id};
    } else {
      assert Below(occupied, id + 1) == Below(occupied, id);
    }
  }

  lemma SubsetSize<T>(a: set<T>, b: set<T>)
    requires a <= b
    ensures |a| <= |b|
  {
    assert b == a + (b - a);
  }

  lemma LowestAt(a: seq<nat>, b: seq<nat>, occupied: set<int>, i: nat)
    requires Lowest(a, occupied) && Lowest(b, occupied) && i < |a| && |a| == |b| && a[..i] == b[..i]
    ensures a[i] >= b[i]
  {}

  /** The answer is the only one: any other list of that many lowest free ids is the same. */
  lemma {:induction false} LowestUnique(a: seq<nat>, b: seq<nat>, occupied: set<int>, i: nat)
    requires Lowest(a, occupied) && Lowest(b, occupied) && i <= |a| && |a| == |b|
    ensures a[..i] == b[..i]
  {
    if i == 0 {
    } else {
      LowestUnique(a, b, occupied, i - 1);
      LowestAt(a, b, occupied, i - 1);
      LowestAt(b, a, occupied, i - 1);
    }
  }

  // ---------------------------------------------------------------- creation

  predicate Built(org: string, slot: string, lanes: map<string, string>) {
    UnitOf(org, slot) in lanes && lanes[UnitOf(org, slot)] == FRESH
  }

  ghost predicate Among(org: string, slots: seq<string>, svc: string) {
    exists i :: 0 <= i < |slots| && svc == UnitOf(org, slots[i])
  }

  /** What is new are units of the first n slots, or of the one after them. */
  ghost predicate OnlyThese(was: map<string, string>, now: map<string, string>, org: string, alloc: seq<string>,
                            n: nat)
  {
    forall svc :: svc in now && svc !in was ==>
      exists i :: 0 <= i < |alloc| && i <= n && svc == UnitOf(org, alloc[i])
  }

  /** The lanes there were, as they were. */
  ghost predicate Stay(was: map<string, string>, now: map<string, string>) {
    forall svc :: svc in was ==> svc in now && now[svc] == was[svc]
  }

  /** The lanes of the first n slots are built, and nothing else is new. */
  ghost predicate Progress(start: map<string, string>, now: map<string, string>, org: string, alloc: seq<string>,
                           n: nat)
    requires n <= |alloc|
  {
    && Stay(start, now) && (forall j :: 0 <= j < n ==> Built(org, alloc[j], now))
    && (forall svc :: svc in now && svc !in start ==> Among(org, alloc[..n], svc))
  }

  /** The lane of one slot is built, or what a failure left of it. */
  ghost predicate Ensured(was: map<string, string>, now: map<string, string>, svc: string, ok: bool,
                          left: Option<string>)
  {
    && (forall other :: other != svc ==> (other in now <==> other in was))
    && (forall other :: other != svc && other in now ==> now[other] == was[other])
    && (svc in now <==> ok || left.Some?)
    && (svc in now ==> now[svc] == if ok then FRESH else left.value)
  }

  lemma ProgressNext(start: map<string, string>, was: map<string, string>, now: map<string, string>, org: string,
                     alloc: seq<string>, i: nat, next: nat, ok: bool, left: Option<string>)
    requires i < |alloc| && next == i + 1 && UnitOf(org, alloc[i]) !in start
    requires forall j :: 0 <= j < i ==> UnitOf(org, alloc[j]) != UnitOf(org, alloc[i])
    requires Progress(start, was, org, alloc, i) && Ensured(was, now, UnitOf(org, alloc[i]), ok, left)
    ensures Stay(start, now) && OnlyThese(start, now, org, alloc, i)
    ensures forall j :: 0 <= j < i ==> Built(org, alloc[j], now)
    ensures ok ==> Progress(start, now, org, alloc, next)
  {
    AmongNext(start, was, now, org, alloc, i);
    forall j | 0 <= j < i ensures Built(org, alloc[j], now) {
      assert Built(org, alloc[j], was) && UnitOf(org, alloc[j]) != UnitOf(org, alloc[i]);
    }
  }

  lemma ProgressEnds(start: map<string, string>, now: map<string, string>, org: string, alloc: seq<string>, n: nat)
    requires n == |alloc| && Progress(start, now, org, alloc, n)
    ensures OnlyThese(start, now, org, alloc, n)
  {
    assert alloc[..n] == alloc;
    forall svc | svc in now && svc !in start
      ensures exists i :: 0 <= i < |alloc| && i <= n && svc == UnitOf(org, alloc[i])
    {
      assert Among(org, alloc, svc);
    }
  }

  lemma AmongNext(start: map<string, string>, was: map<string, string>, now: map<string, string>, org: string,
                  alloc: seq<string>, i: nat)
    requires i < |alloc| && forall svc :: svc in was && svc !in start ==> Among(org, alloc[..i], svc)
    requires forall svc :: svc != UnitOf(org, alloc[i]) ==> (svc in now <==> svc in was)
    ensures OnlyThese(start, now, org, alloc, i)
    ensures forall svc :: svc in now && svc !in start ==> Among(org, alloc[..i + 1], svc)
  {
    forall svc | svc in now && svc !in start
      ensures Among(org, alloc[..i + 1], svc) && exists j :: 0 <= j < |alloc| && j <= i && svc == UnitOf(org, alloc[j])
    {
      if svc == UnitOf(org, alloc[i]) {
        assert alloc[..i + 1][i] == alloc[i];
      } else {
        assert Among(org, alloc[..i], svc);
        var j :| 0 <= j < |alloc[..i]| && svc == UnitOf(org, alloc[..i][j]);
        assert alloc[..i + 1][j] == alloc[j];
      }
    }
  }

  /** What a lane just built holds. */
  const FRESH := "fresh"

  /** The host's slot lanes, by unit name; a lane's value is whatever its tree and unit hold. */
  class Host {
    var lanes: map<string, string>

    /** EnsureEphemeralSlot tears the slot's unit and tree down and rebuilds them; a
        failure can come before the teardown, after it, or after the rebuild. */
    method EnsureSlot(org: string, slot: string, ok: bool, left: Option<string>)
      modifies this
      ensures Ensured(old(lanes), lanes, UnitOf(org, slot), ok, left)
    {
      var svc := UnitOf(org, slot);
      if ok {
        lanes := lanes[svc := FRESH];
      } else {
        lanes := match left case None => lanes - {svc} case Some(v) => lanes[svc := v];
      }
    }

    /** Build lanes for new slots, stopping at the first failure. */
    method BuildLanes(org: string, alloc: seq<string>, fate: string -> Option<Option<string>>)
      returns (slots: seq<string>, failed: bool)
      requires forall i :: 0 <= i < |alloc| ==> UnitOf(org, alloc[i]) !in lanes
      requires forall i, j :: 0 <= i < j < |alloc| ==> UnitOf(org, alloc[i]) != UnitOf(org, alloc[j])
      modifies this
      ensures slots <= alloc && (forall i :: 0 <= i < |slots| ==> fate(slots[i]).None?)
      ensures if failed then |slots| < |alloc| && fate(alloc[|slots|]).Some? else slots == alloc
      ensures Stay(old(lanes), lanes) && OnlyThese(old(lanes), lanes, org, alloc, |slots|)
      ensures forall i :: 0 <= i < |slots| ==> Built(org, slots[i], lanes) && UnitOf(org, slots[i]) !in old(lanes)
    {
      slots, failed := [], false;
      for i := 0 to |alloc|
        invariant slots == alloc[..i] && forall j :: 0 <= j < i ==> fate(alloc[j]).None?
        invariant Progress(old(lanes), lanes, org, alloc, i)
      {
        var f := fate(alloc[i]);
        var left := if f.Some? then f.value else None;
        ghost var was := lanes;
        EnsureSlot(org, alloc[i], f.None?, left);
        ProgressNext(old(lanes), was, lanes, org, alloc, i, i + 1, f.None?, left);
        if f.Some? {
          return slots, true;
        }
        slots := slots + [alloc[i]];
      }
      ProgressEnds(old(lanes), lanes, org, alloc, |alloc|);
    }

    /** CreateEphemeralRunners, from the enumeration on. Whatever happens, including a
        failure part-way, every lane that was there before is left exactly as it was. */
    method CreateEphemeralRunners(units: seq<string>, orgs: seq<string>, org: string, count: int, dryRun: bool,
                                  fate: string -> Option<Option<string>>)
      returns (slots: seq<string>, failed: bool, ghost alloc: seq<string>)
      requires forall svc :: svc in lanes ==> svc in units
      requires org in orgs && |units| + (if count < 1 then 1 else count) <= MAX_INT
      modifies this
      ensures dryRun ==> lanes == old(lanes) && !failed
      ensures !failed ==> |slots| == if count < 1 then 1 else count
      ensures NewSlots(slots, failed, alloc, fate, units, orgs, org, if count < 1 then 1 else count)
      ensures Stay(old(lanes), lanes)
      ensures !dryRun ==>
                forall i :: 0 <= i < |slots| ==> Built(org, slots[i], lanes) && UnitOf(org, slots[i]) !in old(lanes)
      // and nothing else but, after a failure, what is left of the slot it came at
      ensures OnlyThese(old(lanes), lanes, org, alloc, |slots|)
    {
      var want := if count < 1 then 1 else count;
      var occupied := OccupiedSlots(units, orgs, org);
      var free := AllocateSlots(occupied, want);
      alloc := free;
      if dryRun {
        return free, false, alloc;
      }
      NewAlloc(units, orgs, org, occupied, free, want);
      slots, failed := BuildLanes(org, free, fate);
    }
  }

  /** The lowest free slots, up to the first one that could not be built. */
  ghost predicate NewSlots(slots: seq<string>, failed: bool, alloc: seq<string>, fate: string -> Option<Option<string>>,
                           units: seq<string>, orgs: seq<string>, org: string, count: nat)
  {
    exists occupied :: IsOccupied(occupied, units, orgs, org) && LowestFree(alloc, occupied, count) &&
      if failed then slots < alloc && fate(alloc[|slots|]).Some? else slots == alloc
  }

  lemma NewAlloc(units: seq<string>, orgs: seq<string>, org: string, occupied: set<int>, alloc: seq<string>, count: nat)
    requires org in orgs && |occupied| <= |units| && |units| + count <= MAX_INT
    requires IsOccupied(occupied, units, orgs, org)
    requires LowestFree(alloc, occupied, count)
    ensures |alloc| == count
    ensures forall i :: 0 <= i < |alloc| ==> UnitOf(org, alloc[i]) !in units
    ensures forall i, j :: 0 <= i < j < |alloc| ==> UnitOf(org, alloc[i]) != UnitOf(org, alloc[j])
  {
    var ids :| Allocated(ids, occupied, count) && alloc == Strings(ids);
    var sorted :| ForParsing(sorted, orgs) && occupied == Taken(units, sorted, org);
    NewUnits(units, sorted, org, ids);
  }

  /** Allocated ids name units that do not exist yet, all different. */
  lemma NewUnits(units: seq<string>, orgs: seq<string>, org: string, ids: seq<nat>)
    requires org in orgs && LongestFirst(orgs)
    requires Lowest(ids, Taken(units, orgs, org)) && forall i :: 0 <= i < |ids| ==> ids[i] <= MAX_INT
    ensures var alloc := Strings(ids);
      && (forall i :: 0 <= i < |alloc| ==> UnitOf(org, alloc[i]) !in units)
      && (forall i, j :: 0 <= i < j < |alloc| ==> UnitOf(org, alloc[i]) != UnitOf(org, alloc[j]))
  {
    var alloc := Strings(ids);
    forall i | 0 <= i < |alloc| ensures UnitOf(org, alloc[i]) !in units {
      FreeUnit(units, orgs, org, ids[i]);
    }
    forall i, j | 0 <= i < j < |alloc| ensures UnitOf(org, alloc[i]) != UnitOf(org, alloc[j]) {
      DistinctUnits(org, ids[i], ids[j]);
    }
  }

  lemma FreeUnit(units: seq<string>, orgs: seq<string>, org: string, id: nat)
    requires org in orgs && LongestFirst(orgs) && id <= MAX_INT
    requires id !in Taken(units, orgs, org)
    ensures UnitOf(org, Itoa(id)) !in units
  {
    if UnitOf(org, Itoa(id)) in units {
      UnitIsTaken(units, orgs, org, id);
    }
  }

  lemma DistinctUnits(org: string, a: nat, b: nat)
    requires a != b
    ensures UnitOf(org, Itoa(a)) != UnitOf(org, Itoa(b))
  {
    if UnitOf(org, Itoa(a)) == UnitOf(org, Itoa(b)) {
      MiddleOfUnit(EPHEMERAL_PREFIX, org, Itoa(a));
      MiddleOfUnit(EPHEMERAL_PREFIX, org, Itoa(b));
      ClaimsOwn(org, Itoa(a));
      ClaimsOwn(org, Itoa(b));
      ItoaInjective(a, b);
    }
  }
}
