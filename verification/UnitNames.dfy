/** Names srm prints and parses back: service units and ephemeral registrations. */
module UnitNames {
  import opened Text
  import opened Options
  import opened Sorting

  const RUNNER_PREFIX := "actions.runner."
  const EPHEMERAL_PREFIX := "actions.ephemeral."
  const UNIT_SUFFIX := ".service"
  const NAME_PREFIX := "srm-eph-"

  function UnitName(prefix: string, org: string, name: string): string {
    prefix + org + "." + name + UNIT_SUFFIX
  }

  predicate LongestFirst(orgs: seq<string>) {
    forall i, j :: 0 <= i < j < |orgs| ==> |orgs[i]| >= |orgs[j]|
  }

  function Middle(prefix: string, svc: string): string {
    TrimSuffix(TrimPrefix(svc, prefix), UNIT_SUFFIX)
  }

  /** Neither the prefix nor the suffix was there to take off. */
  predicate Foreign(prefix: string, svc: string) {
    Middle(prefix, svc) == svc
  }

  predicate Claims(org: string, mid: string) {
    HasPrefix(mid, org + ".")
  }

  /** parseUnitName and, with the other prefix, parseEphemeralUnitName: the first listed
      org that claims the name. */
  method ParseUnit(prefix: string, svc: string, orgs: seq<string>) returns (r: Option<(string, string)>)
    ensures r == Parsed(prefix, svc, orgs)
    ensures r.None? <==> Foreign(prefix, svc) || forall o :: o in orgs ==> !Claims(o, Middle(prefix, svc))
    ensures r.Some? ==> r.value.0 in orgs && Middle(prefix, svc) == r.value.0 + "." + r.value.1
    ensures r.Some? && LongestFirst(orgs) ==>
              forall o :: o in orgs && Claims(o, Middle(prefix, svc)) ==> |o| <= |r.value.0|
  {
    var mid := Middle(prefix, svc);
    if mid == svc {
      return None;
    }
    for i := 0 to |orgs|
      invariant forall j :: 0 <= j < i ==> !Claims(orgs[j], mid)
      invariant FirstClaim(mid, orgs, 0) == FirstClaim(mid, orgs, i)
    {
      if Claims(orgs[i], mid) {
        assert mid == mid[..|orgs[i] + "."|] + mid[|orgs[i]| + 1..];
        return Some((orgs[i], mid[|orgs[i]| + 1..]));
      }
    }
    r := None;
  }

  function FirstClaim(mid: string, orgs: seq<string>, i: nat): Option<(string, string)>
    requires i <= |orgs|
    decreases |orgs| - i
  {
    if i == |orgs| then None
    else if Claims(orgs[i], mid) then Some((orgs[i], mid[|orgs[i]| + 1..]))
    else FirstClaim(mid, orgs, i + 1)
  }

  function Parsed(prefix: string, svc: string, orgs: seq<string>): Option<(string, string)> {
    if Foreign(prefix, svc) then None else FirstClaim(Middle(prefix, svc), orgs, 0)
  }

  lemma {:induction false} FirstClaimFound(mid: string, orgs: seq<string>, i: nat)
    requires i <= |orgs|
    ensures var r := FirstClaim(mid, orgs, i);
      if r.None? then forall j :: i <= j < |orgs| ==> !Claims(orgs[j], mid)
      else
        exists j :: i <= j < |orgs| && orgs[j] == r.value.0 && Claims(orgs[j], mid) &&
                    r.value.1 == mid[|orgs[j]| + 1..] && forall k :: i <= k < j ==> !Claims(orgs[k], mid)
    decreases |orgs| - i
  {
    if i == |orgs| || Claims(orgs[i], mid) {
    } else {
      FirstClaimFound(mid, orgs, i + 1);
    }
  }

  lemma MiddleOfUnit(prefix: string, org: string, name: string)
    requires prefix != ""
    ensures Middle(prefix, UnitName(prefix, org, name)) == org + "." + name
    ensures !Foreign(prefix, UnitName(prefix, org, name))
  {
    var svc := UnitName(prefix, org, name);
    assert svc[..|prefix|] == prefix;
    var rest := svc[|prefix|..];
    assert rest == org + "." + name + UNIT_SUFFIX;
    assert rest[|rest| - |UNIT_SUFFIX|..] == UNIT_SUFFIX;
    assert rest[..|rest| - |UNIT_SUFFIX|] == org + "." + name;
  }

  /** A longer configured org that also claims the unit of org and name. */
  predicate Shadows(other: string, org: string, name: string) {
    |other| > |org| && Claims(other, org + "." + name)
  }

  /** Shadowing takes a dot in the longer org and a dot in the name. */
  lemma ShadowNeedsDots(other: string, org: string, name: string)
    requires Shadows(other, org, name)
    ensures '.' in other && '.' in name
  {
    var mid := org + "." + name;
    var n := |other|;
    assert (other + ".")[|org|] == mid[|org|] == '.';
    assert other[|org|] == '.';
    assert (other + ".")[n] == mid[n] == '.';
    assert name[n - |org| - 1] == '.';
  }

  lemma ClaimLength(o: string, org: string, mid: string)
    requires Claims(o, mid) && Claims(org, mid) && |o| == |org|
    ensures o == org
  {
    assert o == (o + ".")[..|o|] == mid[..|o + "."|][..|o|];
    assert org == (org + ".")[..|o|] == mid[..|org + "."|][..|o|];
  }

  lemma ClaimsOwn(org: string, name: string)
    ensures Claims(org, org + "." + name) && (org + "." + name)[|org| + 1..] == name
  {
    assert (org + "." + name)[..|org + "."|] == org + ".";
  }

  /** Printing a unit name and parsing it back is the identity if and only if no longer
      configured org shadows it. */
  lemma ParsePrintedUnitIff(prefix: string, org: string, name: string, orgs: seq<string>)
    requires prefix != "" && org in orgs && LongestFirst(orgs)
    ensures Parsed(prefix, UnitName(prefix, org, name), orgs) == Some((org, name)) <==>
              !exists o :: o in orgs && Shadows(o, org, name)
  {
    MiddleOfUnit(prefix, org, name);
    var mid := org + "." + name;
    ClaimsOwn(org, name);
    FirstClaimFound(mid, orgs, 0);
    var k :| 0 <= k < |orgs| && orgs[k] == org;
    assert Claims(orgs[k], mid);
    var j :| 0 <= j < |orgs| && orgs[j] == FirstClaim(mid, orgs, 0).value.0 && Claims(orgs[j], mid) &&
             FirstClaim(mid, orgs, 0).value.1 == mid[|orgs[j]| + 1..] &&
             forall k :: 0 <= k < j ==> !Claims(orgs[k], mid);
    assert j <= k;
    if |orgs[j]| == |org| {
      ClaimLength(orgs[j], org, mid);
      assert forall o :: o in orgs ==> !Shadows(o, org, name);
    } else {
      assert Shadows(orgs[j], org, name);
    }
  }

  /** A name without dots, a slot id in particular, always parses back, and so does every
      name when the configured orgs have no dots. */
  lemma ParsePrintedUnit(prefix: string, org: string, name: string, orgs: seq<string>)
    requires prefix != "" && org in orgs && LongestFirst(orgs)
    requires '.' !in name || forall o :: o in orgs ==> '.' !in o
    ensures Parsed(prefix, UnitName(prefix, org, name), orgs) == Some((org, name))
  {
    ParsePrintedUnitIff(prefix, org, name, orgs);
    forall o | o in orgs ensures !Shadows(o, org, name) {
      if Shadows(o, org, name) {
        ShadowNeedsDots(o, org, name);
      }
    }
  }

  lemma MiddleIs(prefix: string, svc: string)
    requires HasPrefix(svc, prefix) && HasSuffix(svc[|prefix|..], UNIT_SUFFIX)
    ensures svc == prefix + (Middle(prefix, svc) + UNIT_SUFFIX)
  {}

  /** Printing what was parsed gives the unit back. */
  lemma PrintParsedUnit(prefix: string, svc: string, orgs: seq<string>)
    requires HasPrefix(svc, prefix) && HasSuffix(svc[|prefix|..], UNIT_SUFFIX)
    requires Parsed(prefix, svc, orgs).Some?
    ensures var k := Parsed(prefix, svc, orgs).value; svc == UnitName(prefix, k.0, k.1)
  {
    var mid, k := Middle(prefix, svc), Parsed(prefix, svc, orgs).value;
    FirstClaimFound(mid, orgs, 0);
    ClaimSplits(k.0, mid);
    MiddleIs(prefix, svc);
    PrintedWhole(prefix, k.0, k.1);
  }

  lemma PrintedWhole(prefix: string, org: string, name: string)
    ensures UnitName(prefix, org, name) == prefix + ((org + "." + name) + UNIT_SUFFIX)
  {}

  lemma ClaimSplits(org: string, mid: string)
    requires Claims(org, mid)
    ensures mid == org + "." + mid[|org| + 1..]
  {
    assert mid == mid[..|org + "."|] + mid[|org| + 1..];
  }

  /** So two different units never parse to the same org and name. */
  lemma UnitsParseApart(prefix: string, a: string, b: string, orgs: seq<string>)
    requires HasPrefix(a, prefix) && HasPrefix(b, prefix) && HasSuffix(a[|prefix|..], UNIT_SUFFIX) &&
             HasSuffix(b[|prefix|..], UNIT_SUFFIX)
    requires Parsed(prefix, a, orgs).Some? && Parsed(prefix, a, orgs) == Parsed(prefix, b, orgs)
    ensures a == b
  {
    PrintParsedUnit(prefix, a, orgs);
    PrintParsedUnit(prefix, b, orgs);
  }

  function Longer(a: string, b: string): bool {
    |a| > |b|
  }

  /** The configured orgs, sorted by length for parsing. */
  method ByLength(orgs: seq<string>) returns (sorted: seq<string>)
    ensures LongestFirst(sorted) && multiset(sorted) == multiset(orgs)
    ensures forall o :: o in sorted <==> o in orgs
  {
    sorted := Sort(orgs, Longer);
    Rearranged(orgs, sorted);
  }

  lemma ParsedLongest(prefix: string, svc: string, orgs: seq<string>)
    requires LongestFirst(orgs)
    ensures var r := Parsed(prefix, svc, orgs);
      if r.None? then Foreign(prefix, svc) || forall o :: o in orgs ==> !Claims(o, Middle(prefix, svc))
      else !Foreign(prefix, svc) && r.value.0 in orgs && Claims(r.value.0, Middle(prefix, svc)) &&
           r.value.1 == Middle(prefix, svc)[|r.value.0| + 1..] &&
           forall o :: o in orgs && Claims(o, Middle(prefix, svc)) ==> |o| <= |r.value.0|
  {
    FirstClaimFound(Middle(prefix, svc), orgs, 0);
  }

  /** How orgs of the same length are ordered never matters. */
  lemma AnyOrderParsesAlike(prefix: string, svc: string, a: seq<string>, b: seq<string>)
    requires LongestFirst(a) && LongestFirst(b) && forall o :: o in a <==> o in b
    ensures Parsed(prefix, svc, a) == Parsed(prefix, svc, b)
  {
    ParsedLongest(prefix, svc, a);
    ParsedLongest(prefix, svc, b);
    var p, q := Parsed(prefix, svc, a), Parsed(prefix, svc, b);
    if p.Some? && q.Some? {
      ClaimLength(p.value.0, q.value.0, Middle(prefix, svc));
    }
  }

  // ---------------------------------------------------------------- minted names

  function RunnerName(org: string, slot: string, token: string): string {
    NAME_PREFIX + org + "-" + slot + "-" + token
  }

  function IndexOf(s: string, c: char): int {
    if s == "" then -1
    else if s[0] == c then 0
    else var i := IndexOf(s[1..], c); if i < 0 then -1 else i + 1
  }

  lemma {:induction false} IndexOfFirst(a: string, b: string, c: char)
    requires c !in a
    ensures IndexOf(a + [c] + b, c) == |a|
  {
    var s := a + [c] + b;
    if a == "" {
    } else {
      assert s[1..] == a[1..] + [c] + b;
      IndexOfFirst(a[1..], b, c);
    }
  }

  lemma {:induction false} IndexOfBounds(s: string, c: char)
    ensures IndexOf(s, c) < |s| && (IndexOf(s, c) >= 0 ==> s[IndexOf(s, c)] == c && c !in s[..IndexOf(s, c)])
  {
    if s == "" || s[0] == c {
    } else {
      IndexOfBounds(s[1..], c);
      var i := IndexOf(s[1..], c);
      if i >= 0 { assert s[..i + 1] == [s[0]] + s[1..][..i]; }
    }
  }

  /** EphemeralSlotFromName. */
  function SlotFromName(name: string, org: string): Option<string> {
    var rest := TrimPrefix(name, NAME_PREFIX + org + "-");
    IndexOfBounds(rest, '-');
    if rest == name || IndexOf(rest, '-') <= 0 then None else Some(rest[..IndexOf(rest, '-')])
  }

  /** A minted name parses back to its slot, whatever dashes the org has, if and only if
      the slot is not empty and has no dash. */
  lemma SlotOfMintedNameIff(org: string, slot: string, token: string)
    ensures SlotFromName(RunnerName(org, slot, token), org) == Some(slot) <==> slot != "" && '-' !in slot
  {
    var p := NAME_PREFIX + org + "-";
    var name, rest := RunnerName(org, slot, token), slot + "-" + token;
    assert name[..|p|] == p && name[|p|..] == rest;
    IndexOfBounds(rest, '-');
    if '-' !in slot {
      IndexOfFirst(slot, token, '-');
      assert rest == slot + ['-'] + token;
      assert rest[..|slot|] == slot;
    }
  }
}
