/** Subordinate id ranges: the /etc/subuid allocator, its probe, and the service users it
    is run for. */
module SubIds {
  import opened Text
  import opened Options

  const SUBID_COUNT := 65536
  const SUBID_BASE := 100000

  /** Go's int addition. */
  function Wrap(n: int): int {
    (n - MIN_INT) % (MAX_INT - MIN_INT + 1) + MIN_INT
  }

  datatype Result = Written(text: string) | TooSmall

  function Fields(line: string): seq<string> {
    Split(TrimSpace(line), ':')
  }

  /** A line that speaks about `user`. */
  predicate Names(line: string, user: string) {
    |Fields(line)| == 3 && Fields(line)[0] == user
  }

  datatype Range = Range(user: string, start: int, count: int) {
    function End(): int { start + count }
  }

  predicate IsRange(line: string) {
    |Fields(line)| == 3 && Atoi(Fields(line)[1]).Good? && Atoi(Fields(line)[2]).Good?
  }

  function RangeOf(line: string): Range
    requires IsRange(line)
  {
    Range(Fields(line)[0], Atoi(Fields(line)[1]).value, Atoi(Fields(line)[2]).value)
  }

  function RangeAt(line: string): seq<Range> {
    if IsRange(line) then [RangeOf(line)] else []
  }

  /** Every parsable range of a file, in order. */
  function Ranges(lines: seq<string>): seq<Range> {
    Collect(lines, RangeAt)
  }

  function FileRanges(text: string): seq<Range> {
    Ranges(Split(text, '\n'))
  }

  lemma RangesAppend(a: seq<string>, b: seq<string>)
    ensures Ranges(a + b) == Ranges(a) + Ranges(b)
  {
    CollectAppend(a, b, RangeAt);
  }

  /** The first line about the user, if any. */
  function FirstOf(lines: seq<string>, user: string): int {
    if lines == [] then -1
    else if Names(lines[0], user) then 0
    else var i := FirstOf(lines[1..], user); if i < 0 then -1 else i + 1
  }

  lemma {:induction false} FirstOfBounds(lines: seq<string>, user: string)
    ensures var i := FirstOf(lines, user);
      && -1 <= i < |lines|
      && (i >= 0 ==> Names(lines[i], user))
      && forall j :: 0 <= j < (if i < 0 then |lines| else i) ==> !Names(lines[j], user)
  {
    if lines == [] || Names(lines[0], user) {
    } else {
      FirstOfBounds(lines[1..], user);
    }
  }

  lemma {:induction false} FirstOfAppend(a: seq<string>, b: seq<string>, user: string)
    ensures FirstOf(a + b, user) ==
            if FirstOf(a, user) >= 0 then FirstOf(a, user)
            else if FirstOf(b, user) >= 0 then |a| + FirstOf(b, user) else -1
  {
    if a == [] {
      assert a + b == b;
    } else {
      FirstOfAppend(a[1..], b, user);
      assert (a + b)[1..] == a[1..] + b;
    }
  }

  predicate Named(text: string, user: string) {
    FirstOf(Split(text, '\n'), user) >= 0
  }

  /** subIDRangeCount: the count on the user's first line, parse errors ignored. */
  method RangeCount(file: string, user: string) returns (n: int)
    ensures n == Probe(file, user)
  {
    var lines := Split(file, '\n');
    FirstOfBounds(lines, user);
    for i := 0 to |lines|
      invariant forall j :: 0 <= j < i ==> !Names(lines[j], user)
    {
      if Names(lines[i], user) {
        return Atoi(Fields(lines[i])[2]).Lenient();
      }
    }
    n := 0;
  }

  function Probe(file: string, user: string): int {
    ProbeIn(Split(file, '\n'), user)
  }

  function ProbeIn(lines: seq<string>, user: string): int {
    FirstOfBounds(lines, user);
    var i := FirstOf(lines, user);
    if i < 0 then 0 else Atoi(Fields(lines[i])[2]).Lenient()
  }

  // ---------------------------------------------------------------- the allocator

  /** One line's effect on the next free start. */
  function Bump(line: string, next: int): int {
    if IsRange(line) && Wrap(RangeOf(line).End()) > next then Wrap(RangeOf(line).End()) else next
  }

  function NextAfter(lines: seq<string>, next: int): int {
    if lines == [] then next else NextAfter(lines[1..], Bump(lines[0], next))
  }

  function Line(user: string, start: nat): string {
    user + ":" + Itoa(start) + ":" + Itoa(SUBID_COUNT)
  }

  function Terminated(text: string): string {
    if text != "" && !HasSuffix(text, "\n") then text + "\n" else text
  }

  function Ensured(text: string, user: string): Result {
    var lines := Split(text, '\n');
    FirstOfBounds(lines, user);
    var i := FirstOf(lines, user);
    if i >= 0 then
      match Atoi(Fields(lines[i])[2])
      case Good(n) => if n < SUBID_COUNT then TooSmall else Written(text)
      case _ => TooSmall
    else
      NextAfterBase(lines, SUBID_BASE);
      Written(Terminated(text) + Line(user, NextAfter(lines, SUBID_BASE)) + "\n")
  }

  lemma {:induction false} NextAfterBase(lines: seq<string>, next: int)
    ensures NextAfter(lines, next) >= next
    decreases |lines|
  {
    if lines == [] {
    } else {
      NextAfterBase(lines[1..], Bump(lines[0], next));
    }
  }

  /** The next start after a line about somebody else. */
  method NextPast(line: string, next: int) returns (r: int)
    ensures r == Bump(line, next)
  {
    r := next;
    var f := Fields(line);
    if |f| == 3 {
      var start, count := Atoi(f[1]), Atoi(f[2]);
      if start.Good? && count.Good? {
        var end := Wrap(start.value + count.value);
        if end > r { r := end; }
      }
    }
  }

  /** What becomes of the final write: refused, cut short after the truncation, done. */
  datatype Write = Refused | Torn(length: nat) | Whole

  function Landed(before: string, after: string, w: Write): string {
    match w
    case Refused => before
    case Torn(n) => if n < |after| then after[..n] else after
    case Whole => after
  }

  /** The text a file that can be read holds; one that does not exist reads as empty. */
  function TextOf(file: Option<string>): string {
    if file.Some? then file.value else ""
  }

  /** The text an allocation decides on, without writing it. */
  method Decide(text: string, user: string) returns (r: Result)
    ensures r == Ensured(text, user)
  {
    var lines := Split(text, '\n');
    var next: int := SUBID_BASE;
    FirstOfBounds(lines, user);
    NextAfterBase(lines, SUBID_BASE);
    for i := 0 to |lines|
      invariant forall j :: 0 <= j < i ==> !Names(lines[j], user)
      invariant NextAfter(lines, SUBID_BASE) == NextAfter(lines[i..], next)
    {
      assert lines[i..][1..] == lines[i + 1..] && lines[i..][0] == lines[i];
      if Names(lines[i], user) {
        match Atoi(Fields(lines[i])[2])
        case Good(n) => return if n < SUBID_COUNT then TooSmall else Written(text);
        case _ => return TooSmall;
      }
      next := NextPast(lines[i], next);
    }
    r := Written(Terminated(text) + Line(user, next) + "\n");
  }

  /** ensureSubIDFile: the file afterwards, and whether it reports success. A file that is there
      and cannot be read is an error; a user with a line is never written for. */
  method EnsureSubIDFile(file: Option<string>, readable: bool, user: string, w: Write)
    returns (ok: bool, after: Option<string>)
    ensures var text := TextOf(file);
      ok <==> (file.None? || readable) && Ensured(text, user).Written? && (Named(text, user) || w.Whole?)
    ensures var text := TextOf(file);
      after == if (file.Some? && !readable) || Named(text, user) || w.Refused? then file
               else Some(Landed(text, Ensured(text, user).text, w))
    ensures ok ==> Ensured(TextOf(file), user) == Written(TextOf(after))
  {
    after := file;
    if file.Some? && !readable {
      return false, after;
    }
    var text := if file.Some? then file.value else "";
    FirstOfBounds(Split(text, '\n'), user);
    var r := Decide(text, user);
    if r.TooSmall? || Named(text, user) {
      return r.Written?, after;
    }
    ok := w.Whole?;
    if !w.Refused? {
      after := Some(Landed(text, r.text, w));
    }
  }

  // ---------------------------------------------------------------- the text that is written

  /** A user name that survives being put in a line and read back. */
  predicate CleanUser(user: string) {
    user != "" && !IsSpace(user[0]) && ':' !in user && '\n' !in user
  }

  lemma {:induction false} DigitsOnly(n: nat)
    ensures forall c :: c in Itoa(n) ==> '0' <= c <= '9'
  {
    var s := Itoa(n);
    forall c | c in s ensures '0' <= c <= '9' {
      var i :| 0 <= i < |s| && s[i] == c;
    }
  }

  lemma SplitTriple(a: string, b: string, c: string)
    requires ':' !in a && ':' !in b && ':' !in c
    ensures Split(a + ":" + b + ":" + c, ':') == [a, b, c]
  {
    assert a + ":" + b + ":" + c == a + [':'] + (b + [':'] + c);
    SplitAppend(a, b + [':'] + c, ':');
    SplitAppend(b, c, ':');
    SplitOne(a, ':');
    SplitOne(b, ':');
    SplitOne(c, ':');
  }

  lemma TripleParses(user: string, start: nat, count: nat)
    requires CleanUser(user) && start <= MAX_INT && count <= MAX_INT
    ensures var l := user + ":" + Itoa(start) + ":" + Itoa(count);
      && '\n' !in l && IsRange(l) && RangeOf(l) == Range(user, start, count)
      && Fields(l) == [user, Itoa(start), Itoa(count)]
  {
    TripleTrimmed(user, start, count);
    DigitsOnly(start);
    DigitsOnly(count);
    SplitTriple(user, Itoa(start), Itoa(count));
    AtoiItoa(start);
    AtoiItoa(count);
  }

  lemma TripleTrimmed(user: string, start: nat, count: nat)
    requires CleanUser(user)
    ensures var l := user + ":" + Itoa(start) + ":" + Itoa(count);
      TrimSpace(l) == l && '\n' !in l
  {
    var a, b := Itoa(start), Itoa(count);
    DigitsOnly(start);
    DigitsOnly(count);
    var l := user + ":" + a + ":" + b;
    assert l[0] == user[0] && l[|l| - 1] == b[|b| - 1] && b[|b| - 1] in b;
    TrimSpaceNothing(l);
  }

  lemma LineParses(user: string, start: nat)
    requires CleanUser(user) && start <= MAX_INT
    ensures var l := Line(user, start);
      && '\n' !in l && IsRange(l) && RangeOf(l) == Range(user, start, SUBID_COUNT)
      && Names(l, user) && Atoi(Fields(l)[2]) == Good(SUBID_COUNT)
      && forall other :: Names(l, other) ==> other == user
  {
    TripleParses(user, start, SUBID_COUNT);
  }

  /** The lines of a file before its final newline, if it has one. */
  function Body(text: string): seq<string> {
    if text == "" then []
    else if text[|text| - 1] == '\n' then Split(text[..|text| - 1], '\n')
    else Split(text, '\n')
  }

  lemma {:induction false} NextAfterAppend(a: seq<string>, b: seq<string>, next: int)
    ensures NextAfter(a + b, next) == NextAfter(b, NextAfter(a, next))
    decreases |a|
  {
    if a == [] {
      assert a + b == b;
    } else {
      assert (a + b)[1..] == a[1..] + b;
      NextAfterAppend(a[1..], b, Bump(a[0], next));
    }
  }

  lemma NextAfterOne(line: string, next: int)
    ensures NextAfter([line], next) == Bump(line, next)
  {
    assert [line][1..] == [];
  }

  lemma NextAfterBlank(next: int)
    ensures NextAfter([""], next) == next
  {
    BlankLine();
    NextAfterOne("", next);
  }

  lemma BlankLine()
    ensures Fields("") == [""]
  {}

  lemma BodySplit(text: string)
    ensures Split(text, '\n') == Body(text) || Split(text, '\n') == Body(text) + [""]
  {
    if text != "" && text[|text| - 1] == '\n' {
      var front := text[..|text| - 1];
      assert text == front + ['\n'] + "";
      SplitAppend(front, "", '\n');
    }
  }

  /** A blank last line means nothing. */
  lemma BlankTail(lines: seq<string>, user: string)
    ensures Ranges(lines + [""]) == Ranges(lines)
    ensures FirstOf(lines + [""], user) == FirstOf(lines, user)
    ensures NextAfter(lines + [""], SUBID_BASE) == NextAfter(lines, SUBID_BASE)
  {
    BlankLine();
    RangesAppend(lines, [""]);
    CollectOne("", RangeAt);
    FirstOfAppend(lines, [""], user);
    assert FirstOf([""], user) == -1;
    NextAfterAppend(lines, [""], SUBID_BASE);
    NextAfterBlank(NextAfter(lines, SUBID_BASE));
  }

  lemma BodyIsFile(text: string, user: string)
    ensures Split(text, '\n') == Body(text) || Split(text, '\n') == Body(text) + [""]
    ensures FileRanges(text) == Ranges(Body(text))
    ensures FirstOf(Split(text, '\n'), user) == FirstOf(Body(text), user)
    ensures FirstOf(Body(text), user) < |Body(text)|
    ensures NextAfter(Split(text, '\n'), SUBID_BASE) == NextAfter(Body(text), SUBID_BASE)
  {
    BodySplit(text);
    BlankTail(Body(text), user);
    FirstOfBounds(Body(text), user);
  }

  /** Appending one line, after completing an unfinished last line. */
  lemma AppendedBody(text: string, line: string)
    requires '\n' !in line
    ensures Body(Terminated(text) + line + "\n") == Body(text) + [line]
  {
    var done := Terminated(text) + line + "\n";
    assert done[..|done| - 1] == Terminated(text) + line;
    SplitOne(line, '\n');
    if text != "" {
      var front := if text[|text| - 1] == '\n' then text[..|text| - 1] else text;
      assert text[|text| - 1] == '\n' <==> HasSuffix(text, "\n") by {
        assert text[|text| - 1..] == [text[|text| - 1]];
      }
      assert Terminated(text) + line == front + ['\n'] + line;
      SplitAppend(front, line, '\n');
    } else {
      assert Terminated(text) + line == line;
    }
  }

  // ---------------------------------------------------------------- what the allocator guarantees

  predicate Disjoint(a: Range, b: Range) {
    a.count <= 0 || b.count <= 0 || a.End() <= b.start || b.End() <= a.start
  }

  predicate InRange(r: Range, id: int) {
    r.start <= id < r.start + r.count
  }

  /** No id is in both. */
  lemma DisjointIff(a: Range, b: Range)
    ensures Disjoint(a, b) <==> forall id :: !(InRange(a, id) && InRange(b, id))
  {
    var id := if a.start < b.start then b.start else a.start;
    assert !Disjoint(a, b) ==> InRange(a, id) && InRange(b, id);
  }

  ghost predicate PairwiseDisjoint(rs: seq<Range>) {
    forall i, j :: 0 <= i < j < |rs| ==> Disjoint(rs[i], rs[j])
  }

  /** The range runs past the largest int, where the allocator's own sum wraps round. */
  predicate Wraps(r: Range) {
    r.count > 0 && r.End() > MAX_INT
  }

  lemma RangeIsInt(line: string)
    requires IsRange(line)
    ensures MIN_INT <= RangeOf(line).start <= MAX_INT && MIN_INT <= RangeOf(line).count <= MAX_INT
  {}

  lemma BumpCovers(line: string, next: int)
    ensures next <= Bump(line, next)
    ensures IsRange(line) && RangeOf(line).count > 0 && !Wraps(RangeOf(line)) ==>
              RangeOf(line).End() <= Bump(line, next)
  {
    if IsRange(line) {
      RangeIsInt(line);
    }
  }

  lemma RangesCons(lines: seq<string>)
    requires lines != []
    ensures Ranges(lines) == RangeAt(lines[0]) + Ranges(lines[1..])
  {}

  /** The next start is past every range but those that wrap; all starts are ints. */
  lemma {:induction false} NextAfterCovers(lines: seq<string>, next: int)
    ensures next <= NextAfter(lines, next)
    ensures forall r :: r in Ranges(lines) ==> r.start <= MAX_INT
    ensures forall r :: r in Ranges(lines) && r.count > 0 && !Wraps(r) ==> r.End() <= NextAfter(lines, next)
    decreases |lines|
  {
    if lines == [] {
    } else {
      RangesCons(lines);
      BumpCovers(lines[0], next);
      if IsRange(lines[0]) { RangeIsInt(lines[0]); }
      NextAfterCovers(lines[1..], Bump(lines[0], next));
    }
  }

  lemma {:induction false} NextAfterMax(lines: seq<string>, next: int)
    requires next <= MAX_INT
    ensures NextAfter(lines, next) <= MAX_INT
    decreases |lines|
  {
    if lines == [] {
    } else {
      NextAfterMax(lines[1..], Bump(lines[0], next));
    }
  }

  /** The file after a block has been appended for a user it did not name. */
  lemma Appended(text: string, user: string, start: nat)
    requires CleanUser(user) && FirstOf(Split(text, '\n'), user) < 0 && start <= MAX_INT
    ensures var after := Terminated(text) + Line(user, start) + "\n"; var lines := Split(after, '\n');
      && FileRanges(after) == FileRanges(text) + [Range(user, start, SUBID_COUNT)]
      && 0 <= FirstOf(lines, user) < |lines| && lines[FirstOf(lines, user)] == Line(user, start)
      && text <= after
      && NextAfter(lines, SUBID_BASE) == Bump(Line(user, start), NextAfter(Split(text, '\n'), SUBID_BASE))
  {
    var line := Line(user, start);
    var after := Terminated(text) + line + "\n";
    NextAfterAppend(Body(text), [line], SUBID_BASE);
    NextAfterOne(line, NextAfter(Body(text), SUBID_BASE));
    LineParses(user, start);
    AppendedBody(text, line);
    BodyIsFile(text, user);
    BodyIsFile(after, user);
    RangesAppend(Body(text), [line]);
    FirstOfAppend(Body(text), [line], user);
    assert FirstOf([line], user) == 0;
    CollectOne(line, RangeAt);
  }

  /** One allocation on any file, malformed lines included. The old text is a prefix of the
      new one; either the file is unchanged because the user has a wide enough line, or one
      65536-wide block is appended, starting at 100000 or later. Asking again changes
      nothing, and the probe then sees the block. */
  lemma EnsuredText(text: string, user: string)
    requires CleanUser(user) && Ensured(text, user).Written?
    ensures var after := Ensured(text, user).text;
      && text <= after
      && Ensured(after, user) == Written(after)
      && Probe(after, user) >= SUBID_COUNT
      && (after == text || NewBlock(text, after, user))
  {
    var lines := Split(text, '\n');
    FirstOfBounds(lines, user);
    if FirstOf(lines, user) < 0 {
      NextAfterBase(lines, SUBID_BASE);
      NextAfterMax(lines, SUBID_BASE);
      var start := NextAfter(lines, SUBID_BASE);
      Appended(text, user, start);
      LineParses(user, start);
    }
  }

  ghost predicate NewBlock(text: string, after: string, user: string) {
    var start := NextAfter(Split(text, '\n'), SUBID_BASE);
    start >= SUBID_BASE && FileRanges(after) == FileRanges(text) + [Range(user, start, SUBID_COUNT)]
  }

  /** A write cut short for a user without a line loses text, other users' lines with it, if
      and only if it is cut before the end of the old text. */
  lemma TornWriteLosesIff(text: string, user: string, n: nat)
    requires CleanUser(user) && !Named(text, user) && Ensured(text, user).Written?
    ensures text <= Landed(text, Ensured(text, user).text, Torn(n)) <==> n >= |text|
  {
    EnsuredText(text, user);
    CutPrefixIff(text, Ensured(text, user).text, n);
  }

  lemma CutPrefixIff(text: string, after: string, n: nat)
    requires text <= after
    ensures text <= Landed(text, after, Torn(n)) <==> n >= |text|
  {
    assert text == after[..|text|];
    if |text| <= n < |after| { assert after[..n][..|text|] == text; }
  }

  /** Probe and allocator agree about an existing line, except that the probe takes a count
      too large for an int for a huge one, where the allocator rejects it. */
  lemma ProbeAgreesIff(text: string, user: string)
    requires FirstOf(Split(text, '\n'), user) >= 0
    ensures FirstOf(Split(text, '\n'), user) < |Split(text, '\n')|
    ensures |Fields(Split(text, '\n')[FirstOf(Split(text, '\n'), user)])| == 3
    ensures (Probe(text, user) >= SUBID_COUNT <==> Ensured(text, user) == Written(text)) <==>
            Atoi(Fields(Split(text, '\n')[FirstOf(Split(text, '\n'), user)])[2]) != OutOfRange(MAX_INT)
  {
    FirstOfBounds(Split(text, '\n'), user);
  }

  /** Where the next block of a file would start. */
  function NextStart(text: string): int {
    NextAfter(Split(text, '\n'), SUBID_BASE)
  }

  lemma OneMoreDisjoint(rs: seq<Range>, r: Range)
    requires PairwiseDisjoint(rs)
    ensures PairwiseDisjoint(rs + [r]) <==> forall x :: x in rs ==> Disjoint(x, r)
  {
    if PairwiseDisjoint(rs + [r]) {
      forall x | x in rs ensures Disjoint(x, r) {
        var i :| 0 <= i < |rs| && rs[i] == x;
        assert (rs + [r])[i] == x && (rs + [r])[|rs|] == r;
      }
    }
  }

  /** One allocation, exactly: a new block keeps the ranges disjoint if and only if it ends
      before every range that wraps. Ranges that do not wrap it always clears. */
  lemma EnsuredDisjointIff(text: string, user: string)
    requires CleanUser(user) && !Named(text, user) && PairwiseDisjoint(FileRanges(text))
    ensures Ensured(text, user).Written?
    ensures PairwiseDisjoint(FileRanges(Ensured(text, user).text)) <==>
              forall r :: r in FileRanges(text) && Wraps(r) ==> NextStart(text) + SUBID_COUNT <= r.start
  {
    var lines, start := Split(text, '\n'), NextStart(text);
    NextAfterMax(lines, SUBID_BASE);
    NextAfterCovers(lines, SUBID_BASE);
    Appended(text, user, start);
    var block := Range(user, start, SUBID_COUNT);
    OneMoreDisjoint(FileRanges(text), block);
    forall r | r in FileRanges(text)
      ensures Disjoint(r, block) <==> (Wraps(r) ==> start + SUBID_COUNT <= r.start)
    {}
  }

  /** Another user's probe does not change. */
  lemma EnsuredSparesOthers(text: string, user: string, other: string)
    requires CleanUser(user) && Ensured(text, user).Written? && other != user
    ensures Probe(Ensured(text, user).text, other) == Probe(text, other)
  {
    if !Named(text, user) {
      NextAfterBase(Split(text, '\n'), SUBID_BASE);
      NextAfterMax(Split(text, '\n'), SUBID_BASE);
      var line := Line(user, NextStart(text));
      LineParses(user, NextStart(text));
      AppendedBody(text, line);
      ProbeInBody(text, other);
      ProbeInBody(Ensured(text, user).text, other);
      ProbeInAppend(Body(text), line, other);
    } else {
      FirstOfBounds(Split(text, '\n'), user);
    }
  }

  lemma ProbeInAppend(lines: seq<string>, line: string, user: string)
    requires !Names(line, user)
    ensures ProbeIn(lines + [line], user) == ProbeIn(lines, user)
  {
    FirstOfAppend(lines, [line], user);
    assert FirstOf([line], user) == -1;
    FirstOfBounds(lines, user);
  }

  lemma ProbeInBody(text: string, user: string)
    ensures Probe(text, user) == ProbeIn(Body(text), user)
  {
    BodySplit(text);
    BlankLine();
    ProbeInAppend(Body(text), "", user);
  }

  // ---------------------------------------------------------------- all the orgs of a host

  function EnsuredAll(text: string, users: seq<string>): Result
    decreases users
  {
    if users == [] then Written(text)
    else match Ensured(text, users[0])
         case TooSmall => TooSmall
         case Written(t) => EnsuredAll(t, users[1..])
  }

  ghost predicate Distinct(users: seq<string>) {
    forall i, j :: 0 <= i < j < |users| ==> users[i] != users[j]
  }

  ghost predicate AllClean(users: seq<string>) {
    forall i :: 0 <= i < |users| ==> CleanUser(users[i])
  }

  lemma {:induction false} EnsuredAllSparesOthers(text: string, users: seq<string>, other: string)
    requires AllClean(users) && EnsuredAll(text, users).Written? && other !in users
    ensures Probe(EnsuredAll(text, users).text, other) == Probe(text, other)
    decreases users
  {
    if users == [] {
    } else {
      EnsuredSparesOthers(text, users[0], other);
      EnsuredAllSparesOthers(Ensured(text, users[0]).text, users[1..], other);
    }
  }

  /** An allocation for one user names nobody else. */
  lemma EnsuredNamesOthers(text: string, user: string, other: string)
    requires CleanUser(user) && Ensured(text, user).Written? && other != user
    ensures Named(Ensured(text, user).text, other) <==> Named(text, other)
  {
    var lines, done := Split(text, '\n'), Ensured(text, user).text;
    if !Named(text, user) {
      var start := NextStart(text);
      NextAfterBase(lines, SUBID_BASE);
      NextAfterMax(lines, SUBID_BASE);
      var line := Line(user, start);
      LineParses(user, start);
      AppendedBody(text, line);
      BodyIsFile(text, other);
      BodyIsFile(done, other);
      FirstOfAppend(Body(text), [line], other);
      assert FirstOf([line], other) == -1;
    }
  }

  /** How many of the users still need a block. */
  function Missing(text: string, users: seq<string>): nat {
    if users == [] then 0 else (if Named(text, users[0]) then 0 else 1) + Missing(text, users[1..])
  }

  lemma {:induction false} MissingAlike(a: string, b: string, users: seq<string>)
    requires forall u :: u in users ==> (Named(a, u) <==> Named(b, u))
    ensures Missing(a, users) == Missing(b, users)
  {
    if users == [] {
    } else {
      assert users[0] in users && forall u :: u in users[1..] ==> u in users;
      MissingAlike(a, b, users[1..]);
    }
  }

  /** There is room for k more blocks: all but the last end at an int, and the last one ends
      before every range that wraps. */
  ghost predicate Room(text: string, k: nat) {
    RoomIn(FileRanges(text), NextStart(text), k)
  }

  ghost predicate RoomIn(rs: seq<Range>, start: int, k: nat) {
    k > 0 ==>
      start + (k - 1) * SUBID_COUNT <= MAX_INT &&
      forall r :: r in rs && Wraps(r) ==> start + k * SUBID_COUNT <= r.start
  }

  /** The file after a new block, as far as later blocks are concerned. */
  lemma NextFile(text: string, user: string)
    requires CleanUser(user) && !Named(text, user)
    ensures Ensured(text, user).Written? && 0 <= NextStart(text) <= MAX_INT
    ensures var start, next := NextStart(text), Ensured(text, user).text;
      && FileRanges(next) == FileRanges(text) + [Range(user, start, SUBID_COUNT)]
      && NextStart(next) == if start + SUBID_COUNT > MAX_INT then start else start + SUBID_COUNT
  {
    var start := NextStart(text);
    NextAfterBase(Split(text, '\n'), SUBID_BASE);
    NextAfterMax(Split(text, '\n'), SUBID_BASE);
    Appended(text, user, start);
    NewStart(user, start);
  }

  /** What one new block does to the room for the others. */
  lemma RoomNext(text: string, user: string, k: nat)
    requires CleanUser(user) && !Named(text, user) && k > 0 && PairwiseDisjoint(FileRanges(text))
    ensures Ensured(text, user).Written?
    ensures var next := Ensured(text, user).text;
      Room(text, k) <==> PairwiseDisjoint(FileRanges(next)) && Room(next, k - 1)
  {
    EnsuredDisjointIff(text, user);
    NextFile(text, user);
    NextAfterCovers(Split(text, '\n'), SUBID_BASE);
    var next := Ensured(text, user).text;
    RoomArithmetic(FileRanges(text), NextStart(text), Range(user, NextStart(text), SUBID_COUNT), NextStart(next), k);
  }

  lemma RoomArithmetic(rs: seq<Range>, start: nat, block: Range, next: int, k: nat)
    requires k > 0 && start <= MAX_INT && block.start == start && block.count == SUBID_COUNT
    requires next == if start + SUBID_COUNT > MAX_INT then start else start + SUBID_COUNT
    requires forall r :: r in rs ==> r.start <= MAX_INT
    ensures RoomIn(rs, start, k) <==>
              (forall r :: r in rs && Wraps(r) ==> start + SUBID_COUNT <= r.start) && RoomIn(rs + [block], next, k - 1)
  {
    assert block in rs + [block] && forall r :: r in rs + [block] <==> r in rs || r == block;
  }

  lemma WrapOf(n: int)
    ensures MIN_INT <= n <= MAX_INT ==> Wrap(n) == n
    ensures MAX_INT < n <= MAX_INT + SUBID_COUNT ==> Wrap(n) < 0
  {
    var m := MAX_INT - MIN_INT + 1;
    if MAX_INT < n <= MAX_INT + SUBID_COUNT {
      assert n - MIN_INT == m + (n - MIN_INT - m);
    }
  }

  lemma NewStart(user: string, start: nat)
    requires CleanUser(user) && start <= MAX_INT
    ensures Bump(Line(user, start), start) == if start + SUBID_COUNT > MAX_INT then start else start + SUBID_COUNT
  {
    LineParses(user, start);
    WrapOf(start + SUBID_COUNT);
  }

  /** Ranges are never taken back: what overlaps once overlaps for good. */
  lemma {:induction false} EnsuredAllGrows(text: string, users: seq<string>)
    requires AllClean(users) && EnsuredAll(text, users).Written?
    ensures text <= EnsuredAll(text, users).text
    ensures FileRanges(text) <= FileRanges(EnsuredAll(text, users).text)
    decreases users
  {
    if users == [] {
    } else {
      EnsuredText(text, users[0]);
      EnsuredAllGrows(Ensured(text, users[0]).text, users[1..]);
    }
  }

  lemma PrefixDisjoint(a: seq<Range>, b: seq<Range>)
    requires a <= b && PairwiseDisjoint(b)
    ensures PairwiseDisjoint(a)
  {
    forall i, j | 0 <= i < j < |a| ensures Disjoint(a[i], a[j]) {
      assert a[i] == b[i] && a[j] == b[j];
    }
  }

  /** The first user of a list, and then the rest. */
  lemma EnsuredAllCons(text: string, users: seq<string>)
    requires users != [] && EnsuredAll(text, users).Written?
    ensures Ensured(text, users[0]).Written?
    ensures EnsuredAll(text, users) == EnsuredAll(Ensured(text, users[0]).text, users[1..])
  {}

  /** A user with a line changes nothing, and needs no room. */
  lemma NamedStep(text: string, users: seq<string>)
    requires users != [] && EnsuredAll(text, users).Written? && Named(text, users[0])
    ensures EnsuredAll(text, users) == EnsuredAll(text, users[1..])
    ensures Missing(text, users) == Missing(text, users[1..])
  {
    EnsuredAllCons(text, users);
    OldBlock(text, users[0]);
  }

  /** A user without one needs room for one block, the others for theirs after it. */
  lemma UnnamedStep(text: string, users: seq<string>)
    requires users != [] && AllClean(users) && Distinct(users) && EnsuredAll(text, users).Written?
    requires !Named(text, users[0]) && PairwiseDisjoint(FileRanges(text))
    ensures Ensured(text, users[0]).Written?
    ensures var next, rest := Ensured(text, users[0]).text, users[1..];
      && EnsuredAll(text, users) == EnsuredAll(next, rest)
      && (Room(text, Missing(text, users)) <==> PairwiseDisjoint(FileRanges(next)) && Room(next, Missing(next, rest)))
  {
    var u, rest, next := users[0], users[1..], Ensured(text, users[0]).text;
    EnsuredAllCons(text, users);
    forall v | v in rest ensures Named(next, v) <==> Named(text, v) { EnsuredNamesOthers(text, u, v); }
    MissingAlike(text, next, rest);
    RoomNext(text, u, Missing(text, users));
  }

  lemma OverlapStays(text: string, users: seq<string>)
    requires AllClean(users) && EnsuredAll(text, users).Written?
    requires PairwiseDisjoint(FileRanges(EnsuredAll(text, users).text))
    ensures PairwiseDisjoint(FileRanges(text))
  {
    EnsuredAllGrows(text, users);
    PrefixDisjoint(FileRanges(text), FileRanges(EnsuredAll(text, users).text));
  }

  lemma RestOf(users: seq<string>)
    requires users != [] && AllClean(users) && Distinct(users)
    ensures AllClean(users[1..]) && Distinct(users[1..])
  {}

  lemma NobodyMissing(text: string)
    ensures EnsuredAll(text, []) == Written(text) && Room(text, Missing(text, []))
  {}

  /** Allocating for any list of distinct users, in any order, on a file whose ranges are
      disjoint: they all stay disjoint if and only if there was room for the missing ones. */
  lemma {:induction false} EnsuredAllDisjointIff(text: string, users: seq<string>)
    requires AllClean(users) && Distinct(users) && EnsuredAll(text, users).Written?
    requires PairwiseDisjoint(FileRanges(text))
    ensures PairwiseDisjoint(FileRanges(EnsuredAll(text, users).text)) <==> Room(text, Missing(text, users))
    decreases users, 0
  {
    if users == [] {
      NobodyMissing(text);
    } else if Named(text, users[0]) {
      RestOf(users);
      NamedStep(text, users);
      EnsuredAllDisjointIff(text, users[1..]);
    } else {
      RestOf(users);
      UnnamedStep(text, users);
      DisjointThrough(Ensured(text, users[0]).text, users[1..]);
    }
  }

  /** The same from a file that may overlap already. */
  lemma {:induction false} DisjointThrough(text: string, users: seq<string>)
    requires AllClean(users) && Distinct(users) && EnsuredAll(text, users).Written?
    ensures PairwiseDisjoint(FileRanges(EnsuredAll(text, users).text)) <==>
              PairwiseDisjoint(FileRanges(text)) && Room(text, Missing(text, users))
    decreases users, 1
  {
    if PairwiseDisjoint(FileRanges(text)) {
      EnsuredAllDisjointIff(text, users);
    } else if PairwiseDisjoint(FileRanges(EnsuredAll(text, users).text)) {
      OverlapStays(text, users);
    }
  }

  lemma {:induction false} EnsuredAllProbed(text: string, users: seq<string>, u: string)
    requires AllClean(users) && Distinct(users) && EnsuredAll(text, users).Written? && u in users
    ensures Probe(EnsuredAll(text, users).text, u) >= SUBID_COUNT
    decreases users
  {
    var rest, next := users[1..], Ensured(text, users[0]).text;
    if u == users[0] {
      EnsuredText(text, u);
      EnsuredAllSparesOthers(next, rest, u);
    } else {
      EnsuredAllProbed(next, rest, u);
    }
  }

  // ---------------------------------------------------------------- who owns a block

  /** The range on the user's first line, the one line the allocator and the probe look at. */
  function BlockOf(text: string, user: string): Option<Range> {
    BlockIn(Split(text, '\n'), user)
  }

  function BlockIn(lines: seq<string>, user: string): Option<Range> {
    FirstOfBounds(lines, user);
    var i := FirstOf(lines, user);
    if i >= 0 && IsRange(lines[i]) then Some(RangeOf(lines[i])) else None
  }

  predicate HasBlock(text: string, user: string) {
    BlockOf(text, user).Some? && BlockOf(text, user).value.count >= SUBID_COUNT
  }

  /** A block is one of the file's ranges, in its user's name. */
  lemma BlockListed(text: string, user: string)
    requires BlockOf(text, user).Some?
    ensures BlockOf(text, user).value in FileRanges(text) && BlockOf(text, user).value.user == user
  {
    var lines := Split(text, '\n');
    FirstOfBounds(lines, user);
    CollectMember(lines, RangeAt, BlockOf(text, user).value);
  }

  /** An allocation gives its user a block if and only if the user had no line, or a first
      line whose start is a number. */
  lemma EnsuredGivesBlockIff(text: string, user: string)
    requires CleanUser(user) && Ensured(text, user).Written?
    ensures HasBlock(Ensured(text, user).text, user) <==> !Named(text, user) || BlockOf(text, user).Some?
  {
    if Named(text, user) {
      OldBlock(text, user);
    } else {
      NewBlockOf(text, user);
    }
  }

  lemma OldBlock(text: string, user: string)
    requires Named(text, user) && Ensured(text, user).Written?
    ensures Ensured(text, user).text == text && (BlockOf(text, user).Some? ==> HasBlock(text, user))
  {
    FirstOfBounds(Split(text, '\n'), user);
  }

  lemma NewBlockOf(text: string, user: string)
    requires CleanUser(user) && !Named(text, user)
    ensures Ensured(text, user).Written?
    ensures BlockOf(Ensured(text, user).text, user) == Some(Range(user, NextStart(text), SUBID_COUNT))
  {
    NextAfterBase(Split(text, '\n'), SUBID_BASE);
    NextAfterMax(Split(text, '\n'), SUBID_BASE);
    Appended(text, user, NextStart(text));
    LineParses(user, NextStart(text));
  }

  lemma BlockInAppend(lines: seq<string>, line: string, user: string)
    requires !Names(line, user)
    ensures BlockIn(lines + [line], user) == BlockIn(lines, user)
  {
    FirstOfAppend(lines, [line], user);
    assert FirstOf([line], user) == -1;
    FirstOfBounds(lines, user);
  }

  lemma BlockInBody(text: string, user: string)
    ensures BlockOf(text, user) == BlockIn(Body(text), user)
  {
    BodySplit(text);
    BlankLine();
    BlockInAppend(Body(text), "", user);
  }

  lemma EnsuredKeepsBlocks(text: string, user: string, other: string)
    requires CleanUser(user) && Ensured(text, user).Written? && other != user
    ensures BlockOf(Ensured(text, user).text, other) == BlockOf(text, other)
  {
    if !Named(text, user) {
      NextAfterBase(Split(text, '\n'), SUBID_BASE);
      NextAfterMax(Split(text, '\n'), SUBID_BASE);
      var line := Line(user, NextStart(text));
      LineParses(user, NextStart(text));
      AppendedBody(text, line);
      BlockInBody(text, other);
      BlockInBody(Ensured(text, user).text, other);
      BlockInAppend(Body(text), line, other);
    }
  }

  lemma {:induction false} EnsuredAllKeepsBlocks(text: string, users: seq<string>, other: string)
    requires AllClean(users) && EnsuredAll(text, users).Written? && other !in users
    ensures BlockOf(EnsuredAll(text, users).text, other) == BlockOf(text, other)
    decreases users
  {
    if users == [] {
    } else {
      EnsuredKeepsBlocks(text, users[0], other);
      EnsuredAllKeepsBlocks(Ensured(text, users[0]).text, users[1..], other);
    }
  }

  lemma {:induction false} EnsuredAllGivesBlockIff(text: string, users: seq<string>, u: string)
    requires AllClean(users) && Distinct(users) && EnsuredAll(text, users).Written? && u in users
    ensures HasBlock(EnsuredAll(text, users).text, u) <==> !Named(text, u) || BlockOf(text, u).Some?
    decreases users
  {
    var rest, next := users[1..], Ensured(text, users[0]).text;
    if u == users[0] {
      EnsuredGivesBlockIff(text, u);
      EnsuredAllKeepsBlocks(next, rest, u);
    } else {
      EnsuredNamesOthers(text, users[0], u);
      EnsuredKeepsBlocks(text, users[0], u);
      EnsuredAllGivesBlockIff(next, rest, u);
    }
  }

  /** The blocks of different users are different ranges of the file. */
  lemma BlocksDisjoint(text: string, u: string, v: string)
    requires PairwiseDisjoint(FileRanges(text)) && u != v && HasBlock(text, u) && HasBlock(text, v)
    ensures var a, b := BlockOf(text, u).value, BlockOf(text, v).value; a.End() <= b.start || b.End() <= a.start
  {
    BlockListed(text, u);
    BlockListed(text, v);
    var rs := FileRanges(text);
    var i :| 0 <= i < |rs| && rs[i] == BlockOf(text, u).value;
    var j :| 0 <= j < |rs| && rs[j] == BlockOf(text, v).value;
    assert Disjoint(rs[if i < j then i else j], rs[if i < j then j else i]);
  }

  /** Every user in the list owns a wide block, and no two of the blocks meet. */
  ghost predicate OwnDisjointBlocks(text: string, users: seq<string>) {
    (forall u :: u in users ==> HasBlock(text, u)) &&
    forall u, v :: u in users && v in users && u != v && BlockOf(text, u).Some? && BlockOf(text, v).Some? ==>
      var a, b := BlockOf(text, u).value, BlockOf(text, v).value; a.End() <= b.start || b.End() <= a.start
  }

  /** The whole guarantee, on a file whose ranges are disjoint: nothing is lost; the file's
      ranges stay disjoint if and only if there is room; each user ends up with a block if
      and only if it had no line or one whose start is a number; and then, with room, the
      users own disjoint blocks. */
  lemma EnsuredAllGivesDisjointBlocks(text: string, users: seq<string>)
    requires AllClean(users) && Distinct(users) && EnsuredAll(text, users).Written?
    requires PairwiseDisjoint(FileRanges(text))
    ensures var t := EnsuredAll(text, users).text;
      && text <= t
      && (PairwiseDisjoint(FileRanges(t)) <==> Room(text, Missing(text, users)))
      && (forall u :: u in users ==> Probe(t, u) >= SUBID_COUNT)
      && (forall u :: u in users ==> (HasBlock(t, u) <==> !Named(text, u) || BlockOf(text, u).Some?))
      && (Room(text, Missing(text, users)) && (forall u :: u in users ==> !Named(text, u) || BlockOf(text, u).Some?) ==>
            OwnDisjointBlocks(t, users))
  {
    var t := EnsuredAll(text, users).text;
    EnsuredAllGrows(text, users);
    EnsuredAllDisjointIff(text, users);
    forall u | u in users
      ensures Probe(t, u) >= SUBID_COUNT
      ensures HasBlock(t, u) <==> !Named(text, u) || BlockOf(text, u).Some?
    {
      EnsuredAllProbed(text, users, u);
      EnsuredAllGivesBlockIff(text, users, u);
    }
    forall u, v | u in users && v in users && u != v && HasBlock(t, u) && HasBlock(t, v) &&
                  PairwiseDisjoint(FileRanges(t))
      ensures var a, b := BlockOf(t, u).value, BlockOf(t, v).value; a.End() <= b.start || b.End() <= a.start
    {
      BlocksDisjoint(t, u, v);
    }
  }

  /** A line with a wide count and a start that is no number satisfies allocator and probe,
      and gives its user nothing. */
  lemma MalformedLineOwnsNothing(user: string)
    requires CleanUser(user)
    ensures var text := user + ":" + "x" + ":" + Itoa(SUBID_COUNT);
      Ensured(text, user) == Written(text) && Probe(text, user) == SUBID_COUNT && FileRanges(text) == [] &&
      !HasBlock(text, user)
  {
    MalformedLine(user, SUBID_COUNT);
  }

  lemma MalformedLine(user: string, count: nat)
    requires CleanUser(user) && SUBID_COUNT <= count <= MAX_INT
    ensures var text := user + ":" + "x" + ":" + Itoa(count);
      Ensured(text, user) == Written(text) && Probe(text, user) == count && FileRanges(text) == [] &&
      !HasBlock(text, user)
  {
    var text := user + ":" + "x" + ":" + Itoa(count);
    MalformedFields(user, Itoa(count));
    DigitsOnly(count);
    AtoiItoa(count);
    OneBadLine(text, user);
    OneBadFile(text, user, count);
  }

  lemma MalformedFields(user: string, d: string)
    requires CleanUser(user) && d != "" && forall c :: c in d ==> '0' <= c <= '9'
    ensures var text := user + ":" + "x" + ":" + d; '\n' !in text && Fields(text) == [user, "x", d]
  {
    var text := user + ":" + "x" + ":" + d;
    assert text[0] == user[0] && text[|text| - 1] == d[|d| - 1] && d[|d| - 1] in d;
    TrimSpaceNothing(text);
    SplitTriple(user, "x", d);
  }

  lemma OneBadFile(text: string, user: string, count: nat)
    requires Split(text, '\n') == [text] && FirstOf([text], user) == 0 && !IsRange(text)
    requires |Fields(text)| == 3 && Atoi(Fields(text)[2]) == Good(count) && count >= SUBID_COUNT
    ensures Ensured(text, user) == Written(text) && Probe(text, user) == count && !HasBlock(text, user)
  {}

  lemma OneBadLine(text: string, user: string)
    requires '\n' !in text && Names(text, user) && !IsRange(text)
    ensures FileRanges(text) == [] && FirstOf(Split(text, '\n'), user) == 0 && Split(text, '\n') == [text]
  {
    SplitOne(text, '\n');
    CollectOne(text, RangeAt);
  }

  lemma WrappedLineOverlaps(text: string, user: string)
    requires CleanUser(user) && '\n' !in text && IsRange(text) && !Names(text, user)
    requires RangeOf(text).start == SUBID_BASE && RangeOf(text).count == MAX_INT
    ensures PairwiseDisjoint(FileRanges(text)) && Ensured(text, user).Written?
    ensures !PairwiseDisjoint(FileRanges(Ensured(text, user).text))
  {
    OneLine(text, user);
    var r := RangeOf(text);
    assert FileRanges(text) == [r] && r in FileRanges(text) && Wraps(r);
    NextAfterBase(Split(text, '\n'), SUBID_BASE);
    EnsuredDisjointIff(text, user);
  }

  /** Without room the promise fails: a range that runs past the largest int wraps round,
      is overlooked, and the new block lands inside it. */
  lemma WrappedRangeOverlaps(user: string, start: nat, count: nat)
    requires CleanUser(user) && user != "a" && start == SUBID_BASE && count == MAX_INT
    ensures var text := "a" + ":" + Itoa(start) + ":" + Itoa(count);
      PairwiseDisjoint(FileRanges(text)) && Ensured(text, user).Written? &&
      !PairwiseDisjoint(FileRanges(Ensured(text, user).text))
  {
    TripleParses("a", start, count);
    WrappedLineOverlaps("a" + ":" + Itoa(start) + ":" + Itoa(count), user);
  }

  lemma OneLine(text: string, user: string)
    requires '\n' !in text && IsRange(text) && !Names(text, user)
    ensures FileRanges(text) == [RangeOf(text)] && FirstOf(Split(text, '\n'), user) == -1
    ensures NextAfter(Split(text, '\n'), SUBID_BASE) == Bump(text, SUBID_BASE)
  {
    SplitOne(text, '\n');
    CollectOne(text, RangeAt);
    assert NextAfter([text], SUBID_BASE) == NextAfter([], Bump(text, SUBID_BASE));
  }
}
