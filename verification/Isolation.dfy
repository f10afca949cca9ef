/** The service users of a configuration, and what accepting it guarantees for the
    subordinate id blocks of its orgs. */
module Isolation {
  import opened Text
  import SubIds

  datatype Org = Org(name: string, runnerUser: string)
  datatype Config = Config(perOrgUsers: bool, runnerUser: string, orgs: seq<Org>)

  /** unicode.ToLower, as far as it yields an ASCII letter. */
  function Lower(c: char): char {
    if 'A' <= c <= 'Z' then 'a' + (c - 'A')
    else if c == '\U{130}' then 'i'
    else if c == '\U{212A}' then 'k'
    else c
  }

  predicate Plain(c: char) {
    'a' <= c <= 'z' || '0' <= c <= '9'
  }

  function Dash(c: char): char {
    if Plain(Lower(c)) then Lower(c) else '-'
  }

  function Dashed(s: string): string {
    seq(|s|, i requires 0 <= i < |s| => Dash(s[i]))
  }

  function TrimDashesLeft(s: string): string {
    if s != "" && s[0] == '-' then TrimDashesLeft(s[1..]) else s
  }

  function TrimDashesRight(s: string): string {
    if s != "" && s[|s| - 1] == '-' then TrimDashesRight(s[..|s| - 1]) else s
  }

  function Slug(s: string): string {
    TrimDashesRight(TrimDashesLeft(Dashed(s)))
  }

  method BuildSlug(s: string) returns (r: string)
    ensures r == Slug(s)
  {
    var b := "";
    for i := 0 to |s|
      invariant b == Dashed(s)[..i]
    {
      b := b + [if Plain(Lower(s[i])) then Lower(s[i]) else '-'];
    }
    assert b == Dashed(s);
    r := TrimDashesRight(TrimDashesLeft(b));
  }

  function OrgNamed(orgs: seq<Org>, name: string): seq<Org> {
    if orgs == [] then [] else if orgs[0].name == name then [orgs[0]] else OrgNamed(orgs[1..], name)
  }

  function RunnerUserFor(c: Config, org: string): string {
    if !c.perOrgUsers then c.runnerUser
    else
      var found := OrgNamed(c.orgs, org);
      if found != [] && found[0].runnerUser != "" then found[0].runnerUser else "srm-" + Slug(org)
  }

  /** Its code: look the org up, else build the default. */
  method FindRunnerUser(c: Config, org: string) returns (user: string)
    ensures user == RunnerUserFor(c, org)
  {
    if !c.perOrgUsers {
      return c.runnerUser;
    }
    for i := 0 to |c.orgs|
      invariant OrgNamed(c.orgs, org) == OrgNamed(c.orgs[i..], org)
    {
      assert c.orgs[i..][1..] == c.orgs[i + 1..] && c.orgs[i..][0] == c.orgs[i];
      if c.orgs[i].name == org {
        if c.orgs[i].runnerUser != "" {
          return c.orgs[i].runnerUser;
        }
        break;
      }
    }
    var slug := BuildSlug(org);
    user := "srm-" + slug;
  }

  predicate Letter(c: char) {
    'a' <= c <= 'z' || 'A' <= c <= 'Z' || c == '_'
  }

  predicate DigitOrDash(c: char) {
    '0' <= c <= '9' || c == '-'
  }

  /** By their code points. */
  lemma LettersAre(c: char)
    ensures Letter(c) <==> 97 <= c as int <= 122 || 65 <= c as int <= 90 || c as int == 95
    ensures DigitOrDash(c) <==> 48 <= c as int <= 57 || c as int == 45
  {}

  ghost predicate IsUserName(s: string) {
    s != "" && Letter(s[0]) && s[|s| - 1] != '-' && forall i :: 0 <= i < |s| ==> Letter(s[i]) || DigitOrDash(s[i])
  }

  method ValidUserName(s: string) returns (ok: bool)
    ensures ok <==> IsUserName(s)
  {
    if s == "" || HasSuffix(s, "-") {
      assert s != "" ==> s[|s| - 1..] == [s[|s| - 1]];
      return false;
    }
    assert s[|s| - 1..] == [s[|s| - 1]];
    for i := 0 to |s|
      invariant forall j :: 0 <= j < i ==> Letter(s[j]) || DigitOrDash(s[j])
      invariant i > 0 ==> Letter(s[0])
    {
      if Letter(s[i]) {
      } else if DigitOrDash(s[i]) {
        if i == 0 { return false; }
      } else {
        return false;
      }
    }
    ok := true;
  }

  datatype Verdict =
    | Accepted
    | BadUser(org: string, user: string)
    | SharedUser(org: string, other: string, user: string)

  function Users(c: Config): seq<string> {
    seq(|c.orgs|, i requires 0 <= i < |c.orgs| => RunnerUserFor(c, c.orgs[i].name))
  }

  ghost predicate Isolated(c: Config) {
    OwnUsers(Users(c))
  }

  ghost predicate OwnUsers(users: seq<string>) {
    (forall i :: 0 <= i < |users| ==> IsUserName(users[i])) && SubIds.Distinct(users)
  }

  /** validateIsolation: accepted exactly when every org has a valid user of its own. */
  method ValidateIsolation(c: Config) returns (v: Verdict)
    ensures v.Accepted? <==> !c.perOrgUsers || Isolated(c)
  {
    if !c.perOrgUsers {
      return Accepted;
    }
    v := CheckUsers(c);
  }

  /** Its loop, over the orgs and the user each resolves to. */
  method CheckUsers(c: Config) returns (v: Verdict)
    ensures v.Accepted? <==> OwnUsers(Users(c))
  {
    ghost var users := Users(c);
    var owner: map<string, string> := map[];
    for i := 0 to |c.orgs|
      invariant forall j :: 0 <= j < i ==> IsUserName(users[j]) && users[j] in owner
      invariant forall u :: u in owner ==> exists j :: 0 <= j < i && users[j] == u
      invariant forall j, k :: 0 <= j < k < i ==> users[j] != users[k]
    {
      var u := FindRunnerUser(c, c.orgs[i].name);
      assert u == users[i];
      var valid := ValidUserName(u);
      if !valid {
        return BadUser(c.orgs[i].name, u);
      }
      if u in owner {
        return SharedUser(owner[u], c.orgs[i].name, u);
      }
      owner := owner[u := c.orgs[i].name];
    }
    v := Accepted;
  }

  lemma UserNameIsClean(u: string)
    requires IsUserName(u)
    ensures SubIds.CleanUser(u)
  {}

  /** No org's user has a first line whose start is no number. */
  ghost predicate LinesParse(text: string, users: seq<string>) {
    forall u :: u in users ==> !SubIds.Named(text, u) || SubIds.BlockOf(text, u).Some?
  }

  /** End to end: for an accepted configuration, on a file whose ranges are disjoint,
      allocating for its orgs' users in any order keeps them disjoint if and only if there is
      room for the missing blocks, gives every org a block if and only if no org's line is
      malformed, and with both distinct orgs own disjoint blocks. */
  lemma AcceptedOrgsGetDisjointBlocks(c: Config, order: seq<nat>, text: string)
    requires c.perOrgUsers && Isolated(c)
    requires forall k :: 0 <= k < |order| ==> order[k] < |c.orgs|
    requires forall k, l :: 0 <= k < l < |order| ==> order[k] != order[l]
    requires SubIds.PairwiseDisjoint(SubIds.FileRanges(text))
    requires SubIds.EnsuredAll(text, Ordered(c, order)).Written?
    ensures var users := Ordered(c, order);
      var t := SubIds.EnsuredAll(text, users).text;
      var room := SubIds.Room(text, SubIds.Missing(text, users));
      && text <= t
      && (SubIds.PairwiseDisjoint(SubIds.FileRanges(t)) <==> room)
      && ((forall k :: 0 <= k < |order| ==> SubIds.HasBlock(t, users[k])) <==> LinesParse(text, users))
      && (room && LinesParse(text, users) ==>
            forall k, l :: 0 <= k < l < |order| ==> BlocksApart(t, users[k], users[l]))
  {
    var users := Ordered(c, order);
    OrderedUsers(c, order);
    SubIds.EnsuredAllGivesDisjointBlocks(text, users);
    var t := SubIds.EnsuredAll(text, users).text;
    assert forall k :: 0 <= k < |users| ==> users[k] in users;
    if SubIds.Room(text, SubIds.Missing(text, users)) && LinesParse(text, users) {
      forall k, l | 0 <= k < l < |order| ensures BlocksApart(t, users[k], users[l]) {
        assert users[k] != users[l] && SubIds.HasBlock(t, users[k]) && SubIds.HasBlock(t, users[l]);
      }
    }
  }

  /** Two users own a block each, and the blocks do not meet. */
  ghost predicate BlocksApart(text: string, u: string, v: string) {
    && SubIds.HasBlock(text, u) && SubIds.HasBlock(text, v)
    && var a, b := SubIds.BlockOf(text, u).value, SubIds.BlockOf(text, v).value;
       a.End() <= b.start || b.End() <= a.start
  }

  lemma OrderedUsers(c: Config, order: seq<nat>)
    requires c.perOrgUsers && Isolated(c)
    requires forall k :: 0 <= k < |order| ==> order[k] < |c.orgs|
    requires forall k, l :: 0 <= k < l < |order| ==> order[k] != order[l]
    ensures SubIds.AllClean(Ordered(c, order)) && SubIds.Distinct(Ordered(c, order))
  {
    var users := Ordered(c, order);
    forall k | 0 <= k < |users| ensures SubIds.CleanUser(users[k]) {
      UserNameIsClean(Users(c)[order[k]]);
    }
  }

  function Ordered(c: Config, order: seq<nat>): seq<string>
    requires forall k :: 0 <= k < |order| ==> order[k] < |c.orgs|
  {
    seq(|order|, k requires 0 <= k < |order| => Users(c)[order[k]])
  }

  // ---------------------------------------------------------------- the default user

  lemma {:induction false} TrimLeftShape(s: string)
    ensures var t := TrimDashesLeft(s);
      && (t == "" <==> forall i :: 0 <= i < |s| ==> s[i] == '-') && (t != "" ==> t[0] != '-')
      && forall c :: c in t ==> c in s
  {
    if s == "" || s[0] != '-' {
    } else {
      TrimLeftShape(s[1..]);
      assert forall i :: 1 <= i < |s| ==> s[i] == s[1..][i - 1];
    }
  }

  lemma {:induction false} TrimRightShape(s: string)
    requires s != "" && s[0] != '-'
    ensures var t := TrimDashesRight(s);
      t != "" && t[0] == s[0] && t[|t| - 1] != '-' && forall c :: c in t ==> c in s
  {
    if s[|s| - 1] != '-' {
    } else {
      TrimRightShape(s[..|s| - 1]);
    }
  }

  /** What a character of an org becomes in its slug: letters and digits stay, capitals and the
      two letters outside ASCII that lower to one become small, all others become dashes. */
  predicate Slugged(c: char, d: char) {
    if 'a' <= c <= 'z' || '0' <= c <= '9' then d == c
    else if 'A' <= c <= 'Z' then d as int == c as int + 32
    else if c == '\U{130}' then d == 'i'
    else if c == '\U{212A}' then d == 'k'
    else d == '-'
  }

  lemma {:induction false} TrimLeftTakes(s: string) returns (a: nat)
    ensures a <= |s| && TrimDashesLeft(s) == s[a..]
    ensures (forall i :: 0 <= i < a ==> s[i] == '-') && (a < |s| ==> s[a] != '-')
  {
    if s == "" || s[0] != '-' {
      a := 0;
    } else {
      var b := TrimLeftTakes(s[1..]);
      a := b + 1;
      assert forall i :: 1 <= i < a ==> s[i] == s[1..][i - 1];
    }
  }

  lemma {:induction false} TrimRightTakes(s: string) returns (b: nat)
    ensures b <= |s| && TrimDashesRight(s) == s[..b]
    ensures (forall i :: b <= i < |s| ==> s[i] == '-') && (b > 0 ==> s[b - 1] != '-')
  {
    if s == "" || s[|s| - 1] != '-' {
      b := |s|;
    } else {
      b := TrimRightTakes(s[..|s| - 1]);
    }
  }

  /** The slug is the stretch of the org from its first letter or digit to its last, character
      by character. */
  lemma SlugStretch(org: string) returns (a: nat, b: nat)
    ensures a <= b <= |org| && |Slug(org)| == b - a
    ensures forall k :: 0 <= k < b - a ==> Slugged(org[a + k], Slug(org)[k])
    ensures forall i :: 0 <= i < |org| && !(a <= i < b) ==> Slugged(org[i], '-')
    ensures a < b ==> !Slugged(org[a], '-') && !Slugged(org[b - 1], '-')
  {
    var d := Dashed(org);
    forall i | 0 <= i < |org| ensures Slugged(org[i], d[i]) {}
    a := TrimLeftTakes(d);
    var n := TrimRightTakes(d[a..]);
    b := a + n;
    assert Slug(org) == d[a..][..n];
    forall i | 0 <= i < |org| && !(a <= i < b) ensures d[i] == '-' {
      if i >= b { assert d[a..][i - a] == d[i]; }
    }
  }

  lemma {:induction false} OrgNamedFirst(orgs: seq<Org>, org: string)
    ensures OrgNamed(orgs, org) == [] <==> forall i :: 0 <= i < |orgs| ==> orgs[i].name != org
    ensures forall i :: 0 <= i < |orgs| && orgs[i].name == org && (forall j :: 0 <= j < i ==> orgs[j].name != org) ==>
              OrgNamed(orgs, org) == [orgs[i]]
  {
    if orgs == [] {
    } else {
      OrgNamedFirst(orgs[1..], org);
      assert forall i :: 1 <= i < |orgs| ==> orgs[i] == orgs[1..][i - 1];
    }
  }

  /** The service user of an org: the shared one, or with a user for each org the one its first
      entry names, or the default when there is no entry or it names none. */
  lemma RunnerUserIs(c: Config, org: string)
    ensures !c.perOrgUsers ==> RunnerUserFor(c, org) == c.runnerUser
    ensures c.perOrgUsers && (forall i :: 0 <= i < |c.orgs| ==> c.orgs[i].name != org) ==>
              RunnerUserFor(c, org) == "srm-" + Slug(org)
    ensures forall i :: c.perOrgUsers && 0 <= i < |c.orgs| && c.orgs[i].name == org &&
                        (forall j :: 0 <= j < i ==> c.orgs[j].name != org) ==>
              RunnerUserFor(c, org) == if c.orgs[i].runnerUser != "" then c.orgs[i].runnerUser else "srm-" + Slug(org)
  {
    OrgNamedFirst(c.orgs, org);
  }

  /** Two orgs that differ only in what a slug makes dashes of share their default user. */
  lemma DefaultUsersClash(a: string, b: string)
    requires |a| == |b| && forall i :: 0 <= i < |a| ==> a[i] == b[i] || (Slugged(a[i], '-') && Slugged(b[i], '-'))
    ensures Slug(a) == Slug(b)
  {
    assert Dashed(a) == Dashed(b);
  }

  /** The default user of an org is valid exactly when the org has a letter or a digit. */
  lemma DefaultUserValidIff(org: string)
    ensures IsUserName("srm-" + Slug(org)) <==> exists i :: 0 <= i < |org| && Plain(Lower(org[i]))
  {
    var d := Dashed(org);
    assert forall i :: 0 <= i < |org| ==> (d[i] == '-' <==> !Plain(Lower(org[i])));
    TrimLeftShape(d);
    var l := TrimDashesLeft(d);
    if l != "" {
      TrimRightShape(l);
      var u := "srm-" + Slug(org);
      assert u[|u| - 1] == Slug(org)[|Slug(org)| - 1];
      forall i | 0 <= i < |u| ensures Letter(u[i]) || DigitOrDash(u[i]) {
        if i >= 4 { assert u[i] in Slug(org); }
      }
      assert exists i :: 0 <= i < |d| && d[i] != '-';
    } else {
      assert "srm-" + Slug(org) == "srm-";
    }
  }
}
