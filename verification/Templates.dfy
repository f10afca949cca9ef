/** Unit templates: the generation marker in a unit's text, and the comparison that ignores it. */
module Templates {
  import opened Text

  const DROPIN := "dropin"
  const EPHEMERAL := "ephemeral"

  function Marker(kind: string): string {
    "# srm-" + kind + "-v"
  }

  predicate IsMarker(line: string, kind: string) {
    HasPrefix(TrimSpace(line), Marker(kind))
  }

  /** The generation a marker line states; -1 when it states none. */
  function Stated(line: string, kind: string): int {
    if !IsMarker(line, kind) then -1
    else match Atoi(TrimSpace(line)[|Marker(kind)|..])
         case Good(n) => if n >= 0 then n else -1
         case _ => -1
  }

  function FirstStated(lines: seq<string>, kind: string): nat {
    if lines == [] then 0
    else if Stated(lines[0], kind) >= 0 then Stated(lines[0], kind)
    else FirstStated(lines[1..], kind)
  }

  function Version(text: string, kind: string): nat {
    FirstStated(Split(text, '\n'), kind)
  }

  /** unitVersion: the first marker line that states a generation, else 0. */
  method UnitVersion(text: string, kind: string) returns (n: nat)
    ensures n == Version(text, kind)
  {
    var lines := Split(text, '\n');
    for i := 0 to |lines|
      invariant Version(text, kind) == FirstStated(lines[i..], kind)
    {
      assert lines[i..][1..] == lines[i + 1..] && lines[i..][0] == lines[i];
      var line := TrimSpace(lines[i]);
      if HasPrefix(line, Marker(kind)) {
        match Atoi(line[|Marker(kind)|..])
        case Good(v) => if v >= 0 { return v; }
        case _ =>
      }
    }
    n := 0;
  }

  function Keeps(kind: string): string -> bool {
    line => !IsMarker(line, kind)
  }

  function Strip(text: string, kind: string): string {
    Join(Filter(Split(text, '\n'), Keeps(kind)), '\n')
  }

  /** stripMarker: filter the lines in place, then join them. */
  method StripMarker(text: string, kind: string) returns (r: string)
    ensures r == Strip(text, kind)
  {
    var parts := Split(text, '\n');
    var lines := new string[|parts|](i requires 0 <= i < |parts| => parts[i]);
    assert lines[..|parts|] == parts;
    var kept := Compact(lines, |parts|, Keeps(kind));
    r := Join(lines[..kept], '\n');
  }

  lemma FirstCharDecides(l: string, kind: string)
    requires l == "" || (!IsSpace(l[0]) && l[0] != '#')
    ensures !IsMarker(l, kind)
  {
    if l != "" {
      TrimRightHead(l);
    }
  }

  lemma {:induction false} TrimRightHead(l: string)
    requires l != "" && !IsSpace(l[0])
    ensures TrimRight(l) != "" && TrimRight(l)[0] == l[0]
  {
    if !IsSpace(l[|l| - 1]) {
    } else {
      TrimRightHead(l[..|l| - 1]);
    }
  }

  // ---------------------------------------------------------------- stripping

  lemma FilterFree(lines: seq<string>, kind: string, sep: char)
    requires Free(lines, sep)
    ensures Free(Filter(lines, Keeps(kind)), sep)
  {
    var kept := Filter(lines, Keeps(kind));
    FilterSound(lines, Keeps(kind));
    forall i | 0 <= i < |kept| ensures sep !in kept[i] {
      assert kept[i] in lines;
    }
  }

  /** The lines of a stripped text: the lines that are kept, or one empty line. */
  lemma StripLines(text: string, kind: string)
    ensures var kept := Filter(Split(text, '\n'), Keeps(kind));
      Split(Strip(text, kind), '\n') == if kept == [] then [""] else kept
  {
    SplitFree(text, '\n');
    FilterFree(Split(text, '\n'), kind, '\n');
    var kept := Filter(Split(text, '\n'), Keeps(kind));
    if kept != [] {
      SplitJoin(kept, '\n');
    }
  }

  lemma BlankIsNoMarker(kind: string)
    ensures !IsMarker("", kind)
  {}

  /** Stripping twice strips no more, and leaves no generation behind. */
  lemma StripIdempotent(text: string, kind: string)
    ensures Strip(Strip(text, kind), kind) == Strip(text, kind)
    ensures Version(Strip(text, kind), kind) == 0
  {
    StripLines(text, kind);
    BlankIsNoMarker(kind);
    var lines := Split(Strip(text, kind), '\n');
    FilterSound(Split(text, '\n'), Keeps(kind));
    assert forall l :: l in lines ==> Keeps(kind)(l);
    FilterAll(lines, Keeps(kind));
    JoinSplit(Strip(text, kind), '\n');
    NoneStated(lines, kind);
  }

  lemma {:induction false} NoneStated(lines: seq<string>, kind: string)
    requires forall l :: l in lines ==> !IsMarker(l, kind)
    ensures FirstStated(lines, kind) == 0
  {
    if lines == [] {
    } else {
      NoneStated(lines[1..], kind);
    }
  }

  /** A marker line put anywhere among a text's lines does not change what is compared. */
  lemma InsertedMarkerIsInvisible(text: string, at: nat, marker: string, kind: string)
    requires at <= |Split(text, '\n')| && IsMarker(marker, kind) && '\n' !in marker
    ensures var lines := Split(text, '\n');
      Strip(Join(lines[..at] + [marker] + lines[at..], '\n'), kind) == Strip(text, kind)
  {
    var lines := Split(text, '\n');
    SplitFree(text, '\n');
    FreeInserted(lines, at, marker, '\n');
    StripJoined(lines[..at] + [marker] + lines[at..], kind);
    DroppedInside(lines, at, marker, kind);
  }

  lemma DroppedInside(lines: seq<string>, at: nat, marker: string, kind: string)
    requires at <= |lines| && IsMarker(marker, kind)
    ensures Filter(lines[..at] + [marker] + lines[at..], Keeps(kind)) == Filter(lines, Keeps(kind))
  {
    FilterDrops(lines[..at], marker, lines[at..], Keeps(kind));
    assert lines[..at] + lines[at..] == lines;
  }

  lemma FreeInserted(lines: seq<string>, at: nat, line: string, sep: char)
    requires at <= |lines| && Free(lines, sep) && sep !in line
    ensures Free(lines[..at] + [line] + lines[at..], sep)
  {
    var more := lines[..at] + [line] + lines[at..];
    forall i | 0 <= i < |more| ensures sep !in more[i] {
      assert more[i] == if i < at then lines[i] else if i == at then line else lines[i - 1];
    }
  }

  lemma StripJoined(lines: seq<string>, kind: string)
    requires lines != [] && Free(lines, '\n')
    ensures Strip(Join(lines, '\n'), kind) == Join(Filter(lines, Keeps(kind)), '\n')
  {
    SplitJoin(lines, '\n');
  }

  // ---------------------------------------------------------------- rendering

  /** A rendered unit: its lines up to the marker, the marker, and everything after. */
  function Rendered(head: string, kind: string, generation: nat, rest: string): string {
    head + "\n" + (Marker(kind) + Itoa(generation)) + "\n" + rest
  }

  lemma MarkerLine(kind: string, generation: nat)
    requires generation <= MAX_INT && '\n' !in kind
    ensures var l := Marker(kind) + Itoa(generation); '\n' !in l && IsMarker(l, kind) && Stated(l, kind) == generation
  {
    var m, d := Marker(kind), Itoa(generation);
    var l := m + d;
    assert l[0] == '#' && l[|l| - 1] == d[|d| - 1] && '0' <= d[|d| - 1] <= '9';
    TrimSpaceNothing(l);
    assert l[..|m|] == m && l[|m|..] == d;
    AtoiItoa(generation);
    forall c | c in l ensures c != '\n' {
      if c in d { var i :| 0 <= i < |d| && d[i] == c; }
    }
  }

  /** Some line states a generation. */
  ghost predicate States(lines: seq<string>, kind: string) {
    exists l :: l in lines && Stated(l, kind) >= 0
  }

  /** The first lines decide, if they state a generation at all. */
  lemma {:induction false} FirstStatedSplits(a: seq<string>, b: seq<string>, kind: string)
    ensures FirstStated(a + b, kind) == if States(a, kind) then FirstStated(a, kind) else FirstStated(b, kind)
  {
    if a == [] {
      assert a + b == b;
    } else {
      assert (a + b)[1..] == a[1..] + b;
      assert a == [a[0]] + a[1..];
      FirstStatedSplits(a[1..], b, kind);
    }
  }

  /** The generation read from a rendered unit, exactly: the one its lines above the marker
      state first, and the one it was rendered with if they state none. What comes after the
      marker never matters. */
  lemma RenderedReads(head: string, kind: string, generation: nat, rest: string)
    requires generation <= MAX_INT && '\n' !in kind
    ensures Version(Rendered(head, kind, generation, rest), kind) ==
            if States(Split(head, '\n'), kind) then Version(head, kind) else generation
  {
    var line := Marker(kind) + Itoa(generation);
    MarkerLine(kind, generation);
    RenderedLines(head, line, rest);
    FirstStatedSplits(Split(head, '\n'), [line] + Split(rest, '\n'), kind);
    FirstStatedHere(line, Split(rest, '\n'), kind);
  }

  /** It reads back as written if and only if the lines above the marker state no generation,
      or state that very one first. */
  lemma RenderedVersionIff(head: string, kind: string, generation: nat, rest: string)
    requires generation <= MAX_INT && '\n' !in kind
    ensures Version(Rendered(head, kind, generation, rest), kind) == generation <==>
            !States(Split(head, '\n'), kind) || Version(head, kind) == generation
  {
    RenderedReads(head, kind, generation, rest);
  }

  lemma RenderedVersion(head: string, kind: string, generation: nat, rest: string)
    requires generation <= MAX_INT && '\n' !in kind
    requires forall l :: l in Split(head, '\n') ==> !IsMarker(l, kind)
    ensures Version(Rendered(head, kind, generation, rest), kind) == generation
  {
    RenderedReads(head, kind, generation, rest);
    NoneStates(Split(head, '\n'), kind);
  }

  lemma NoneStates(lines: seq<string>, kind: string)
    requires forall l :: l in lines ==> !IsMarker(l, kind)
    ensures !States(lines, kind)
  {}

  lemma RenderedLines(head: string, line: string, rest: string)
    requires '\n' !in line
    ensures Split(head + "\n" + line + "\n" + rest, '\n') == Split(head, '\n') + ([line] + Split(rest, '\n'))
  {
    assert head + "\n" + line + "\n" + rest == head + ['\n'] + (line + ['\n'] + rest);
    SplitAppend(head, line + ['\n'] + rest, '\n');
    SplitAppend(line, rest, '\n');
    SplitOne(line, '\n');
  }

  lemma FirstStatedHere(line: string, more: seq<string>, kind: string)
    requires Stated(line, kind) >= 0
    ensures FirstStated([line] + more, kind) == Stated(line, kind)
  {}

  datatype Limits = Limits(memoryHigh: string, memoryMax: string, memorySwapMax: string, cpuWeight: string,
                           tasksMax: string)
  datatype UnitOptions = UnitOptions(
    protectProc: bool, slice: string, isolated: bool, user: string,
    toolCache: string, cacheRoot: string, limits: Limits,
    selfExe: string, configPath: string, dind: bool)

  const CURRENT_DROPIN: nat := 1
  const CURRENT_EPHEMERAL: nat := 2
  const DEFAULT_SELF_EXE := "/usr/local/bin/srm"

  /** A line that is left out when there is nothing to say. */
  function Directive(key: string, val: string): seq<string> {
    if val != "" then [key + "=" + val] else []
  }

  function CacheEnv(key: string, val: string): seq<string> {
    ["Environment=" + key + "=" + val]
  }

  function CacheLines(o: UnitOptions): seq<string> {
    CacheEnv("AGENT_TOOLSDIRECTORY", o.toolCache) +
    CacheEnv("npm_config_cache", o.cacheRoot + "/npm") + CacheEnv("npm_config_store_dir", o.cacheRoot + "/pnpm") +
    CacheEnv("YARN_CACHE_FOLDER", o.cacheRoot + "/yarn") + CacheEnv("PIP_CACHE_DIR", o.cacheRoot + "/pip") +
    CacheEnv("GOMODCACHE", o.cacheRoot + "/go/mod") + CacheEnv("GOCACHE", o.cacheRoot + "/go/build") +
    CacheEnv("CARGO_HOME", o.cacheRoot + "/cargo") + CacheEnv("GRADLE_USER_HOME", o.cacheRoot + "/gradle")
  }

  function LimitLines(l: Limits): seq<string> {
    Directive("MemoryHigh", l.memoryHigh) + Directive("MemoryMax", l.memoryMax) +
    Directive("MemorySwapMax", l.memorySwapMax) + Directive("CPUWeight", l.cpuWeight) +
    Directive("TasksMax", l.tasksMax)
  }

  /** The lines of a drop-in that depend on the options, in order. */
  function OptionLines(o: UnitOptions): seq<string> {
    (if o.protectProc then ["ProtectProc=invisible"] else []) + Directive("Slice", o.slice) +
    (if o.isolated then Directive("User", o.user) else []) + CacheLines(o) + LimitLines(o.limits)
  }

  /** Every line with its line break. */
  function Unlines(lines: seq<string>): string {
    if lines == [] then "" else lines[0] + "\n" + Unlines(lines[1..])
  }

  /** What follows the marker in the drop-in; `fixed` is the block of hardening directives that
      does not depend on the options. */
  function DropInRest(fixed: string, o: UnitOptions): string {
    fixed + Unlines(OptionLines(o))
  }

  /** renderDropIn. */
  function RenderDropIn(fixed: string, o: UnitOptions): string {
    Rendered("[Service]", DROPIN, CURRENT_DROPIN, DropInRest(fixed, o))
  }

  lemma ServiceHead()
    ensures Split("[Service]", '\n') == ["[Service]"] && !IsMarker("[Service]", DROPIN)
  {
    SplitOne("[Service]", '\n');
    FirstCharDecides("[Service]", DROPIN);
  }

  /** Every drop-in is rendered with its generation below its first line. */
  lemma DropInReads(g: nat, rest: string)
    requires g <= MAX_INT
    ensures Version(Rendered("[Service]", DROPIN, g, rest), DROPIN) == g
  {
    ServiceHead();
    RenderedVersion("[Service]", DROPIN, g, rest);
  }

  lemma RenderDropInVersion(fixed: string, o: UnitOptions)
    ensures Version(RenderDropIn(fixed, o), DROPIN) == CURRENT_DROPIN
  {
    DropInReads(CURRENT_DROPIN, DropInRest(fixed, o));
  }

  // ---------------------------------------------------------------- a drop-in cut short

  /** The number the first k digits of g make. */
  function Leading(g: nat, k: nat): nat
    requires k > 0
  {
    if k >= |Itoa(g)| then g else Leading(g / 10, k)
  }

  lemma {:induction false} LeadingDigits(g: nat, k: nat)
    requires 0 < k <= |Itoa(g)|
    ensures Itoa(g)[..k] == Itoa(Leading(g, k))
    ensures if k < |Itoa(g)| then Leading(g, k) < g else Leading(g, k) == g
  {
    if k == |Itoa(g)| {
    } else {
      assert Itoa(g)[..|Itoa(g)| - 1] == Itoa(g / 10);
      assert Itoa(g)[..k] == Itoa(g / 10)[..k];
      LeadingDigits(g / 10, k);
    }
  }

  /** Where the digits of a drop-in's generation begin. */
  const DIGITS_AT := |"[Service]\n" + Marker(DROPIN)|

  /** What the first n characters of a drop-in of generation g state: nothing before the
      digits, then the number the digits so far make. */
  function StatedUpTo(g: nat, n: nat): nat {
    if n <= DIGITS_AT then 0 else Leading(g, n - DIGITS_AT)
  }

  /** Which is the generation itself if and only if the cut is past its last digit; anywhere
      before it is less. */
  lemma StatedUpToIff(g: nat, n: nat)
    requires g > 0
    ensures StatedUpTo(g, n) <= g
    ensures StatedUpTo(g, n) == g <==> n >= DIGITS_AT + |Itoa(g)|
  {
    if DIGITS_AT < n <= DIGITS_AT + |Itoa(g)| {
      LeadingDigits(g, n - DIGITS_AT);
    }
  }

  lemma {:induction false} TrimLeftShrinks(s: string)
    ensures |TrimLeft(s)| <= |s|
  {
    if s == "" || !IsSpace(s[0]) {
    } else {
      TrimLeftShrinks(s[1..]);
    }
  }

  lemma {:induction false} TrimRightShrinks(s: string)
    ensures |TrimRight(s)| <= |s|
  {
    if s == "" || !IsSpace(s[|s| - 1]) {
    } else {
      TrimRightShrinks(s[..|s| - 1]);
    }
  }

  /** The start of a marker, even a whole one, states nothing without digits. */
  lemma MarkerAloneStates(line: string, kind: string)
    requires |line| <= |Marker(kind)|
    ensures Stated(line, kind) == -1
  {
    TrimLeftShrinks(line);
    TrimRightShrinks(TrimLeft(line));
    if IsMarker(line, kind) {
      assert TrimSpace(line)[|Marker(kind)|..] == "";
    }
  }

  lemma FirstOfTwo(a: string, b: string, kind: string)
    requires !IsMarker(a, kind)
    ensures FirstStated([a, b], kind) == if Stated(b, kind) >= 0 then Stated(b, kind) else 0
  {
    assert [a, b][1..] == [b] && [b][1..] == [];
    assert FirstStated([b], kind) == if Stated(b, kind) >= 0 then Stated(b, kind) else FirstStated([], kind);
  }

  /** A text of one line before another. */
  lemma TwoLines(head: string, line: string, kind: string)
    requires '\n' !in head && '\n' !in line && !IsMarker(head, kind)
    ensures Version(head + ['\n'] + line, kind) == if Stated(line, kind) >= 0 then Stated(line, kind) else 0
  {
    SplitAppend(head, line, '\n');
    SplitOne(head, '\n');
    SplitOne(line, '\n');
    assert [head] + [line] == [head, line];
    FirstOfTwo(head, line, kind);
  }

  lemma CutInHead(n: nat)
    requires n <= |"[Service]"|
    ensures Version("[Service]"[..n], DROPIN) == 0
  {
    var line := "[Service]"[..n];
    SplitOne(line, '\n');
    FirstCharDecides(line, DROPIN);
    assert [line][1..] == [];
  }

  lemma DigitsState(kind: string, g: nat, k: nat)
    requires g <= MAX_INT && '\n' !in kind && 0 < k <= |Itoa(g)|
    ensures Stated(Marker(kind) + Itoa(g)[..k], kind) == Leading(g, k)
  {
    LeadingDigits(g, k);
    MarkerLine(kind, Leading(g, k));
  }

  /** What the first n characters of a marker line state. */
  lemma CutLineStates(kind: string, line: string, g: nat, n: nat)
    requires g <= MAX_INT && '\n' !in kind && line == Marker(kind) + Itoa(g) && n <= |line|
    ensures Stated(line[..n], kind) == if n <= |Marker(kind)| then -1 else Leading(g, n - |Marker(kind)|)
  {
    if n <= |Marker(kind)| {
      MarkerAloneStates(line[..n], kind);
    } else {
      CutSecond(Marker(kind), Itoa(g), n);
      DigitsState(kind, g, n - |Marker(kind)|);
    }
  }

  lemma CutSecond(a: string, b: string, n: nat)
    requires |a| <= n <= |a + b|
    ensures (a + b)[..n] == a + b[..n - |a|]
  {}

  lemma NoBreakInCut(line: string, n: nat)
    requires '\n' !in line && n <= |line|
    ensures '\n' !in line[..n]
  {}

  /** The cut falls in the marker line. */
  lemma CutInMarker(g: nat, line: string, n: nat)
    requires g <= MAX_INT && line == Marker(DROPIN) + Itoa(g) && n <= |line|
    ensures Version("[Service]" + ['\n'] + line[..n], DROPIN) == StatedUpTo(g, |"[Service]\n"| + n)
  {
    MarkerLine(DROPIN, g);
    NoBreakInCut(line, n);
    ServiceHead();
    TwoLines("[Service]", line[..n], DROPIN);
    CutLineStates(DROPIN, line, g, n);
  }

  /** Where n characters of a text end: in its first line, its second, or after both. */
  lemma CutPieces(head: string, line: string, rest: string, n: nat)
    requires n <= |head + "\n" + line + "\n" + rest|
    ensures var text, m := head + "\n" + line + "\n" + rest, |head| + 1;
      && (n <= |head| ==> text[..n] == head[..n])
      && (m <= n <= m + |line| ==> text[..n] == head + ['\n'] + line[..n - m])
      && (n > m + |line| ==> text[..n] == head + "\n" + line + "\n" + rest[..n - m - |line| - 1])
  {}

  /** What is read from a drop-in of generation g of which n characters were written. */
  lemma CutDropInReads(g: nat, rest: string, n: nat)
    requires g <= MAX_INT && n <= |Rendered("[Service]", DROPIN, g, rest)|
    ensures Version(Rendered("[Service]", DROPIN, g, rest)[..n], DROPIN) == StatedUpTo(g, n)
  {
    var head, line := "[Service]", Marker(DROPIN) + Itoa(g);
    CutPieces(head, line, rest, n);
    if n <= |head| {
      CutInHead(n);
    } else if n <= |head| + 1 + |line| {
      CutInMarker(g, line, n - |head| - 1);
    } else {
      DropInReads(g, rest[..n - |head| - |line| - 2]);
      assert StatedUpTo(g, n) == g;
    }
  }

  // ---------------------------------------------------------------- the ephemeral unit

  /** What comes before the marker in an ephemeral unit, line by line. */
  function EphemeralHead(o: UnitOptions, org: string, slot: string, workDir: string): seq<string> {
    var exe := if o.selfExe == "" then DEFAULT_SELF_EXE else o.selfExe;
    ["[Unit]", "Description=srm ephemeral runner slot " + org + "/" + slot + " (managed by srm)",
     "StartLimitIntervalSec=0", "", "[Service]", "Type=simple", "WorkingDirectory=" + workDir,
     "ExecStart=" + exe + " _runner-cycle --org " + org + " --slot " + slot +
       (if o.configPath != "" then " --config " + o.configPath else ""),
     "Restart=always", "RestartSec=3", "KillMode=mixed", "TimeoutStopSec=3600"]
  }

  /** The ephemeral unit over any body below the marker. */
  function EphemeralUnit(o: UnitOptions, org: string, slot: string, workDir: string, rest: string): string {
    Rendered(Join(EphemeralHead(o, org, slot, workDir), '\n'), EPHEMERAL, CURRENT_EPHEMERAL, rest)
  }

  /** An ephemeral unit states its generation too, if and only if the values set above the
      marker bring in no line that states another one first. */
  lemma EphemeralUnitVersionIff(o: UnitOptions, org: string, slot: string, workDir: string, rest: string)
    ensures var head := Join(EphemeralHead(o, org, slot, workDir), '\n');
      Version(EphemeralUnit(o, org, slot, workDir, rest), EPHEMERAL) == CURRENT_EPHEMERAL <==>
        !States(Split(head, '\n'), EPHEMERAL) || Version(head, EPHEMERAL) == CURRENT_EPHEMERAL
  {
    RenderedVersionIff(Join(EphemeralHead(o, org, slot, workDir), '\n'), EPHEMERAL, CURRENT_EPHEMERAL, rest);
  }

  /** Values without a line break bring in none. */
  lemma EphemeralUnitVersion(o: UnitOptions, org: string, slot: string, workDir: string, rest: string)
    requires Free(EphemeralHead(o, org, slot, workDir), '\n')
    ensures Version(EphemeralUnit(o, org, slot, workDir, rest), EPHEMERAL) == CURRENT_EPHEMERAL
  {
    var lines := EphemeralHead(o, org, slot, workDir);
    HeadStatesNothing(o, org, slot, workDir);
    PlainHeadReads(lines, CURRENT_EPHEMERAL, rest);
  }

  lemma HeadStatesNothing(o: UnitOptions, org: string, slot: string, workDir: string)
    ensures EphemeralHead(o, org, slot, workDir) != []
    ensures forall l :: l in EphemeralHead(o, org, slot, workDir) ==> !IsMarker(l, EPHEMERAL)
  {
    forall l | l in EphemeralHead(o, org, slot, workDir) ensures !IsMarker(l, EPHEMERAL) {
      FirstCharDecides(l, EPHEMERAL);
    }
  }

  lemma PlainHeadReads(lines: seq<string>, g: nat, rest: string)
    requires lines != [] && Free(lines, '\n') && forall l :: l in lines ==> !IsMarker(l, EPHEMERAL)
    requires g <= MAX_INT
    ensures Version(Rendered(Join(lines, '\n'), EPHEMERAL, g, rest), EPHEMERAL) == g
  {
    SplitJoin(lines, '\n');
    RenderedVersion(Join(lines, '\n'), EPHEMERAL, g, rest);
  }

  lemma FirstMarkerReads(before: seq<string>, line: string, after: seq<string>, kind: string)
    requires Stated(line, kind) >= 0 && forall l :: l in before ==> !IsMarker(l, kind)
    ensures States(before + [line] + after, kind)
    ensures FirstStated(before + [line] + after, kind) == Stated(line, kind)
  {
    var lines := before + [line] + after;
    assert line in lines && lines == before + ([line] + after);
    NoneStates(before, kind);
    FirstStatedSplits(before, [line] + after, kind);
    FirstStatedHere(line, after, kind);
  }

  /** What it takes: a line of the head that states another generation before the marker. */
  lemma MisledHead(before: seq<string>, line: string, after: seq<string>, rest: string)
    requires Free(before + [line] + after, '\n') && Stated(line, EPHEMERAL) >= 0
    requires forall l :: l in before ==> !IsMarker(l, EPHEMERAL)
    ensures Version(Rendered(Join(before + [line] + after, '\n'), EPHEMERAL, CURRENT_EPHEMERAL, rest), EPHEMERAL)
            == Stated(line, EPHEMERAL)
  {
    FirstMarkerReads(before, line, after, EPHEMERAL);
    HeadReads(before + [line] + after, rest);
  }

  lemma HeadReads(lines: seq<string>, rest: string)
    requires Free(lines, '\n') && States(lines, EPHEMERAL)
    ensures Version(Rendered(Join(lines, '\n'), EPHEMERAL, CURRENT_EPHEMERAL, rest), EPHEMERAL)
            == FirstStated(lines, EPHEMERAL)
  {
    SplitJoin(lines, '\n');
    RenderedReads(Join(lines, '\n'), EPHEMERAL, CURRENT_EPHEMERAL, rest);
  }

  /** A working directory with a marker line in it changes the generation that is read. */
  lemma WorkDirMisleads(o: UnitOptions, org: string, slot: string, dir: string, generation: nat, rest: string)
    requires Free(EphemeralHead(o, org, slot, dir), '\n') && generation <= MAX_INT
    ensures var workDir := dir + ['\n'] + (Marker(EPHEMERAL) + Itoa(generation));
      Version(EphemeralUnit(o, org, slot, workDir, rest), EPHEMERAL) == generation
  {
    var line := Marker(EPHEMERAL) + Itoa(generation);
    MarkerLine(EPHEMERAL, generation);
    HeadStatesNothing(o, org, slot, dir);
    BrokenHead(o, org, slot, dir, line);
    MisledAt(EphemeralHead(o, org, slot, dir), 7, line, rest);
  }

  lemma MisledAt(lines: seq<string>, at: nat, line: string, rest: string)
    requires at <= |lines| && Free(lines, '\n') && '\n' !in line && Stated(line, EPHEMERAL) >= 0
    requires forall l :: l in lines ==> !IsMarker(l, EPHEMERAL)
    ensures var head := Join(lines[..at] + [line] + lines[at..], '\n');
      Version(Rendered(head, EPHEMERAL, CURRENT_EPHEMERAL, rest), EPHEMERAL) == Stated(line, EPHEMERAL)
  {
    FreeInserted(lines, at, line, '\n');
    assert forall l :: l in lines[..at] ==> l in lines;
    MisledHead(lines[..at], line, lines[at..], rest);
  }

  lemma BrokenHead(o: UnitOptions, org: string, slot: string, dir: string, line: string)
    ensures var lines := EphemeralHead(o, org, slot, dir);
      Join(EphemeralHead(o, org, slot, dir + ['\n'] + line), '\n') == Join(lines[..7] + [line] + lines[7..], '\n')
  {
    var lines, broken := EphemeralHead(o, org, slot, dir), EphemeralHead(o, org, slot, dir + ['\n'] + line);
    var key := "WorkingDirectory=";
    assert key + (dir + ['\n'] + line) == (key + dir) + ['\n'] + line;
    assert broken == lines[..6] + [lines[6] + ['\n'] + line] + lines[7..];
    assert lines[..7] + [line] + lines[7..] == lines[..6] + [lines[6], line] + lines[7..];
    JoinBreak(lines[..6], lines[6], line, lines[7..], '\n');
  }

  // ---------------------------------------------------------------- conformance

  /** templateConformance: (ok, newer). */
  function Conformance(onDisk: int, current: int, bodyMatch: bool): (bool, bool) {
    (onDisk <= current && bodyMatch, onDisk > current)
  }
}
