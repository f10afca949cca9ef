/** What a drop-in says of the options it was rendered for, and that a changed option is drift. */
module Settings {
  import opened Text
  import opened Templates
  import opened Classify

  /** One of the build tools' caches below a root. */
  predicate CacheLine(root: string, l: string) {
    || l == "Environment=" + "npm_config_cache" + "=" + (root + "/npm")
    || l == "Environment=" + "npm_config_store_dir" + "=" + (root + "/pnpm")
    || l == "Environment=" + "YARN_CACHE_FOLDER" + "=" + (root + "/yarn")
    || l == "Environment=" + "PIP_CACHE_DIR" + "=" + (root + "/pip")
    || l == "Environment=" + "GOMODCACHE" + "=" + (root + "/go/mod")
    || l == "Environment=" + "GOCACHE" + "=" + (root + "/go/build")
    || l == "Environment=" + "CARGO_HOME" + "=" + (root + "/cargo")
    || l == "Environment=" + "GRADLE_USER_HOME" + "=" + (root + "/gradle")
  }

  /** A limit that is not set has no line. */
  predicate LimitLine(m: Limits, l: string) {
    || (m.memoryHigh != "" && l == "MemoryHigh" + "=" + m.memoryHigh)
    || (m.memoryMax != "" && l == "MemoryMax" + "=" + m.memoryMax)
    || (m.memorySwapMax != "" && l == "MemorySwapMax" + "=" + m.memorySwapMax)
    || (m.cpuWeight != "" && l == "CPUWeight" + "=" + m.cpuWeight)
    || (m.tasksMax != "" && l == "TasksMax" + "=" + m.tasksMax)
  }

  /** Nor has a setting that is off. */
  predicate PlaceLine(o: UnitOptions, l: string) {
    || (o.protectProc && l == "ProtectProc=invisible")
    || (o.slice != "" && l == "Slice" + "=" + o.slice)
    || (o.isolated && o.user != "" && l == "User" + "=" + o.user)
  }

  predicate OptionLine(o: UnitOptions, l: string) {
    || PlaceLine(o, l) || l == "Environment=" + "AGENT_TOOLSDIRECTORY" + "=" + o.toolCache
    || CacheLine(o.cacheRoot, l) || LimitLine(o.limits, l)
  }

  lemma CacheLinesAre(o: UnitOptions, l: string)
    ensures l in CacheLines(o) <==>
              l == "Environment=" + "AGENT_TOOLSDIRECTORY" + "=" + o.toolCache || CacheLine(o.cacheRoot, l)
  {}

  lemma LimitLinesAre(m: Limits, l: string)
    ensures l in LimitLines(m) <==> LimitLine(m, l)
  {}

  /** The lines that depend on the options are exactly these. */
  lemma OptionLinesAre(o: UnitOptions, l: string)
    ensures l in OptionLines(o) <==> OptionLine(o, l)
  {
    CacheLinesAre(o, l);
    LimitLinesAre(o.limits, l);
  }

  // ---------------------------------------------------------------- a line gives its option back

  lemma SameRest(k: string, a: string, b: string)
    ensures k + a == k + b <==> a == b
  {
    assert (k + a)[|k|..] == a && (k + b)[|k|..] == b;
  }

  lemma SameFront(k: string, a: string, b: string)
    ensures a + k == b + k <==> a == b
  {
    assert (a + k)[..|a + k| - |k|] == a && (b + k)[..|b + k| - |k|] == b;
  }

  /** How the lines of each group begin. */
  lemma Beginnings(o: UnitOptions, l: string)
    ensures PlaceLine(o, l) ==> |l| > 0 && l[0] in {'P', 'S', 'U'}
    ensures LimitLine(o.limits, l) ==> |l| > 8 && l[0] in {'M', 'C', 'T'}
    ensures CacheLine(o.cacheRoot, l) ==> |l| > 23 && l[0] == 'E' && l[12] != 'A'
  {}

  lemma PlaceReads(o: UnitOptions, v: string)
    ensures PlaceLine(o, "ProtectProc=invisible") ==> o.protectProc
    ensures PlaceLine(o, "Slice" + "=" + v) ==> o.slice == v
    ensures PlaceLine(o, "User" + "=" + v) ==> o.isolated && o.user == v
  {
    SameRest("Slice" + "=", o.slice, v);
    SameRest("User" + "=", o.user, v);
    assert ("Slice" + "=" + v)[0] == 'S' && ("User" + "=" + v)[0] == 'U' && "ProtectProc=invisible"[0] == 'P';
    assert ("Slice" + "=" + o.slice)[0] == 'S' && ("User" + "=" + o.user)[0] == 'U';
  }

  lemma MemoryReads(m: Limits, v: string)
    ensures LimitLine(m, "MemoryHigh" + "=" + v) ==> m.memoryHigh == v
    ensures LimitLine(m, "MemoryMax" + "=" + v) ==> m.memoryMax == v
    ensures LimitLine(m, "MemorySwapMax" + "=" + v) ==> m.memorySwapMax == v
  {
    SameRest("MemoryHigh" + "=", m.memoryHigh, v);
    SameRest("MemoryMax" + "=", m.memoryMax, v);
    SameRest("MemorySwapMax" + "=", m.memorySwapMax, v);
    MemoryKeys(v);
    MemoryKeys(m.memoryHigh);
    MemoryKeys(m.memoryMax);
    MemoryKeys(m.memorySwapMax);
    OtherKeys(m.cpuWeight);
    OtherKeys(m.tasksMax);
  }

  lemma OtherLimitReads(m: Limits, v: string)
    ensures LimitLine(m, "CPUWeight" + "=" + v) ==> m.cpuWeight == v
    ensures LimitLine(m, "TasksMax" + "=" + v) ==> m.tasksMax == v
  {
    SameRest("CPUWeight" + "=", m.cpuWeight, v);
    SameRest("TasksMax" + "=", m.tasksMax, v);
    OtherKeys(v);
    OtherKeys(m.cpuWeight);
    OtherKeys(m.tasksMax);
    MemoryKeys(m.memoryHigh);
    MemoryKeys(m.memoryMax);
    MemoryKeys(m.memorySwapMax);
  }

  lemma MemoryKeys(v: string)
    ensures var l := "MemoryHigh" + "=" + v; |l| > 6 && l[0] == 'M' && l[6] == 'H'
    ensures var l := "MemoryMax" + "=" + v; |l| > 6 && l[0] == 'M' && l[6] == 'M'
    ensures var l := "MemorySwapMax" + "=" + v; |l| > 6 && l[0] == 'M' && l[6] == 'S'
  {}

  lemma OtherKeys(v: string)
    ensures ("CPUWeight" + "=" + v)[0] == 'C' && ("TasksMax" + "=" + v)[0] == 'T'
  {}

  lemma CacheReads(root: string, v: string)
    ensures CacheLine(root, "Environment=" + "npm_config_cache" + "=" + (v + "/npm")) ==> root == v
  {
    var k := "Environment=" + "npm_config_cache" + "=";
    var l := k + (v + "/npm");
    SameRest(k, root + "/npm", v + "/npm");
    SameFront("/npm", root, v);
    assert l[12] == 'n' && l[23] == 'c';
    var other := "Environment=" + "npm_config_store_dir" + "=" + (root + "/pnpm");
    assert other[23] == 's';
  }

  lemma ToolsRead(o: UnitOptions, v: string)
    requires OptionLine(o, "Environment=" + "AGENT_TOOLSDIRECTORY" + "=" + v)
    ensures o.toolCache == v
  {
    var k := "Environment=" + "AGENT_TOOLSDIRECTORY" + "=";
    var l := k + v;
    assert l[0] == 'E' && l[12] == 'A';
    Beginnings(o, l);
    SameRest(k, o.toolCache, v);
  }

  // ---------------------------------------------------------------- the same lines, the same settings

  function UserOf(o: UnitOptions): string {
    if o.isolated then o.user else ""
  }

  /** The options agree on all that a drop-in depends on. */
  predicate SameSettings(o: UnitOptions, p: UnitOptions) {
    && o.protectProc == p.protectProc && o.slice == p.slice && UserOf(o) == UserOf(p)
    && o.toolCache == p.toolCache && o.cacheRoot == p.cacheRoot && o.limits == p.limits
  }

  /** Every setting p has a line for, o has as well. */
  ghost predicate Covers(o: UnitOptions, p: UnitOptions) {
    forall l :: OptionLine(p, l) ==> OptionLine(o, l)
  }

  lemma PlaceOnly(o: UnitOptions, p: UnitOptions, l: string)
    requires Covers(o, p) && PlaceLine(p, l)
    ensures PlaceLine(o, l)
  {
    assert OptionLine(p, l) && OptionLine(o, l);
    Beginnings(p, l);
    Beginnings(o, l);
    assert ("Environment=" + "AGENT_TOOLSDIRECTORY" + "=" + o.toolCache)[0] == 'E';
  }

  lemma CoversPlace(o: UnitOptions, p: UnitOptions)
    requires Covers(o, p)
    ensures p.protectProc ==> o.protectProc
    ensures p.slice != "" ==> o.slice == p.slice
    ensures UserOf(p) != "" ==> UserOf(o) == UserOf(p)
  {
    if p.protectProc { PlaceOnly(o, p, "ProtectProc=invisible"); PlaceReads(o, ""); }
    if p.slice != "" { PlaceOnly(o, p, "Slice" + "=" + p.slice); PlaceReads(o, p.slice); }
    if UserOf(p) != "" { PlaceOnly(o, p, "User" + "=" + p.user); PlaceReads(o, p.user); }
  }

  lemma CoversCaches(o: UnitOptions, p: UnitOptions)
    requires Covers(o, p)
    ensures o.toolCache == p.toolCache && o.cacheRoot == p.cacheRoot
  {
    var tools := "Environment=" + "AGENT_TOOLSDIRECTORY" + "=" + p.toolCache;
    assert OptionLine(p, tools) && OptionLine(o, tools);
    ToolsRead(o, p.toolCache);
    var npm := "Environment=" + "npm_config_cache" + "=" + (p.cacheRoot + "/npm");
    assert CacheLine(p.cacheRoot, npm) && OptionLine(p, npm) && OptionLine(o, npm);
    assert npm[0] == 'E' && npm[12] == 'n';
    Beginnings(o, npm);
    assert ("Environment=" + "AGENT_TOOLSDIRECTORY" + "=" + o.toolCache)[12] == 'A';
    CacheReads(o.cacheRoot, p.cacheRoot);
  }

  /** A limit's line is no other group's. */
  lemma LimitOnly(o: UnitOptions, p: UnitOptions, l: string)
    requires Covers(o, p) && LimitLine(p.limits, l)
    ensures LimitLine(o.limits, l)
  {
    assert OptionLine(p, l) && OptionLine(o, l);
    Beginnings(p, l);
    Beginnings(o, l);
    assert ("Environment=" + "AGENT_TOOLSDIRECTORY" + "=" + o.toolCache)[0] == 'E';
  }

  lemma CoversLimits(o: UnitOptions, p: UnitOptions)
    requires Covers(o, p)
    ensures var m, n := o.limits, p.limits;
      && (n.memoryHigh != "" ==> m.memoryHigh == n.memoryHigh) && (n.memoryMax != "" ==> m.memoryMax == n.memoryMax)
      && (n.memorySwapMax != "" ==> m.memorySwapMax == n.memorySwapMax)
      && (n.cpuWeight != "" ==> m.cpuWeight == n.cpuWeight) && (n.tasksMax != "" ==> m.tasksMax == n.tasksMax)
  {
    var m, n := o.limits, p.limits;
    if n.memoryHigh != "" { LimitOnly(o, p, "MemoryHigh" + "=" + n.memoryHigh); MemoryReads(m, n.memoryHigh); }
    if n.memoryMax != "" { LimitOnly(o, p, "MemoryMax" + "=" + n.memoryMax); MemoryReads(m, n.memoryMax); }
    if n.memorySwapMax != "" {
      LimitOnly(o, p, "MemorySwapMax" + "=" + n.memorySwapMax);
      MemoryReads(m, n.memorySwapMax);
    }
    if n.cpuWeight != "" { LimitOnly(o, p, "CPUWeight" + "=" + n.cpuWeight); OtherLimitReads(m, n.cpuWeight); }
    if n.tasksMax != "" { LimitOnly(o, p, "TasksMax" + "=" + n.tasksMax); OtherLimitReads(m, n.tasksMax); }
  }

  /** Two drop-ins have the same lines if and only if they were rendered for the same settings. */
  lemma SameLinesIff(o: UnitOptions, p: UnitOptions)
    ensures OptionLines(o) == OptionLines(p) <==> SameSettings(o, p)
  {
    if OptionLines(o) == OptionLines(p) {
      forall l ensures OptionLine(o, l) <==> OptionLine(p, l) {
        OptionLinesAre(o, l);
        OptionLinesAre(p, l);
      }
      CoversPlace(o, p);
      CoversPlace(p, o);
      CoversCaches(o, p);
      CoversLimits(o, p);
      CoversLimits(p, o);
    }
  }

  // ---------------------------------------------------------------- the text, and drift

  lemma {:induction false} UnlinesSplit(lines: seq<string>)
    requires Free(lines, '\n')
    ensures Split(Unlines(lines), '\n') == lines + [""]
  {
    if lines == [] {
    } else {
      UnlinesSplit(lines[1..]);
      assert Unlines(lines) == lines[0] + ['\n'] + Unlines(lines[1..]);
      SplitAppend(lines[0], Unlines(lines[1..]), '\n');
      SplitOne(lines[0], '\n');
      assert [lines[0]] + (lines[1..] + [""]) == lines + [""];
    }
  }

  /** The fixed block ends in a line break, if there is one. */
  predicate WholeLines(fixed: string) {
    fixed == "" || fixed[|fixed| - 1] == '\n'
  }

  function FixedLines(fixed: string): seq<string> {
    if fixed == "" then [] else Split(fixed[..|fixed| - 1], '\n')
  }

  /** The lines above the ones that depend on the options. */
  function HeadLines(fixed: string): seq<string> {
    ["[Service]", "# srm-dropin-v1"] + FixedLines(fixed)
  }

  /** The marker lines of this binary. */
  lemma MarkersAre()
    ensures Marker(DROPIN) + Itoa(CURRENT_DROPIN) == "# srm-dropin-v1"
    ensures Marker(EPHEMERAL) + Itoa(CURRENT_EPHEMERAL) == "# srm-ephemeral-v2"
  {
    assert Itoa(1) == "1" && Itoa(2) == "2";
  }

  lemma RestLines(fixed: string, lines: seq<string>)
    requires WholeLines(fixed) && Free(lines, '\n')
    ensures Split(fixed + Unlines(lines), '\n') == FixedLines(fixed) + (lines + [""])
  {
    UnlinesSplit(lines);
    if fixed == "" {
      assert fixed + Unlines(lines) == Unlines(lines);
    } else {
      var f := fixed[..|fixed| - 1];
      assert fixed + Unlines(lines) == f + ['\n'] + Unlines(lines);
      SplitAppend(f, Unlines(lines), '\n');
    }
  }

  /** A drop-in, line by line. */
  lemma DropInLines(fixed: string, o: UnitOptions)
    requires WholeLines(fixed) && Free(OptionLines(o), '\n')
    ensures Split(RenderDropIn(fixed, o), '\n') == HeadLines(fixed) + (OptionLines(o) + [""])
  {
    var line := Marker(DROPIN) + Itoa(CURRENT_DROPIN);
    MarkersAre();
    MarkerLine(DROPIN, CURRENT_DROPIN);
    RenderedLines("[Service]", line, DropInRest(fixed, o));
    ServiceHead();
    RestLines(fixed, OptionLines(o));
    LinesTogether("[Service]", line, FixedLines(fixed), OptionLines(o) + [""]);
  }

  lemma LinesTogether(a: string, b: string, c: seq<string>, d: seq<string>)
    ensures [a] + ([b] + (c + d)) == [a, b] + c + d
  {}

  lemma OptionLinesStay(o: UnitOptions)
    ensures Filter(OptionLines(o) + [""], Keeps(DROPIN)) == OptionLines(o) + [""]
  {
    var lines := OptionLines(o) + [""];
    forall l | l in lines ensures Keeps(DROPIN)(l) {
      if l in OptionLines(o) {
        OptionLinesAre(o, l);
        Beginnings(o, l);
        assert ("Environment=" + "AGENT_TOOLSDIRECTORY" + "=" + o.toolCache)[0] == 'E';
      }
      FirstCharDecides(l, DROPIN);
    }
    FilterAll(lines, Keeps(DROPIN));
  }

  /** What a drop-in is compared by: its lines without the marker. */
  lemma BodyLines(fixed: string, o: UnitOptions)
    requires WholeLines(fixed) && Free(OptionLines(o), '\n')
    ensures Split(Strip(RenderDropIn(fixed, o), DROPIN), '\n') ==
            Filter(HeadLines(fixed), Keeps(DROPIN)) + (OptionLines(o) + [""])
  {
    DropInLines(fixed, o);
    StripLines(RenderDropIn(fixed, o), DROPIN);
    FilterAppend(HeadLines(fixed), OptionLines(o) + [""], Keeps(DROPIN));
    OptionLinesStay(o);
  }

  lemma SameTailOnly(k: seq<string>, a: seq<string>, b: seq<string>)
    ensures k + (a + [""]) == k + (b + [""]) <==> a == b
  {
    assert (k + (a + [""]))[|k|..] == a + [""] && (k + (b + [""]))[|k|..] == b + [""];
    assert (a + [""])[..|a|] == a && (b + [""])[..|b|] == b;
  }

  /** A drop-in rendered for one set of options conforms to another if and only if they agree on
      every setting: protection, slice, user, caches and limits. Nothing less is drift, and
      nothing more. The values must be free of line breaks. */
  lemma ConformsIff(fixed: string, o: UnitOptions, p: UnitOptions, s: Scene)
    requires WholeLines(fixed) && Free(OptionLines(o), '\n') && Free(OptionLines(p), '\n')
    requires s.onGitHub && s.online && s.active && (s.hasTree || !s.hasFlatTree) && s.readable
    ensures var found, mine := RenderDropIn(fixed, o), RenderDropIn(fixed, p);
      ClassOf(SRM, DropIn(found), Binary(CURRENT_DROPIN, mine), s) ==
      if SameSettings(o, p) then Healthy else StaleDropIn
  {
    BodyLines(fixed, o);
    BodyLines(fixed, p);
    SameTailOnly(Filter(HeadLines(fixed), Keeps(DROPIN)), OptionLines(o), OptionLines(p));
    SameLinesIff(o, p);
    RenderDropInVersion(fixed, o);
    JoinSplit(Strip(RenderDropIn(fixed, o), DROPIN), '\n');
    JoinSplit(Strip(RenderDropIn(fixed, p), DROPIN), '\n');
  }

  /** The command of a lane: srm itself, in the default place or another, and a configuration
      only if there is one. */
  lemma CommandIs(o: UnitOptions, org: string, slot: string, dir: string)
    ensures var exe := if o.selfExe != "" then o.selfExe else "/usr/local/bin/srm";
      var run := "ExecStart=" + exe + " _runner-cycle --org " + org + " --slot " + slot;
      |EphemeralHead(o, org, slot, dir)| == 12 && EphemeralHead(o, org, slot, dir)[7] ==
        if o.configPath == "" then run else run + " --config " + o.configPath
  {
    var exe := if o.selfExe == "" then DEFAULT_SELF_EXE else o.selfExe;
    PrefixedCommand(exe, " _runner-cycle --org ", org, " --slot ", slot,
                    if o.configPath != "" then " --config " + o.configPath else "");
    if o.configPath != "" {
      Joined("ExecStart=" + exe + " _runner-cycle --org " + org + " --slot " + slot, " --config ", o.configPath);
    }
  }

  lemma Joined(a: string, b: string, c: string)
    ensures a + (b + c) == a + b + c
  {}

  lemma PrefixedCommand(exe: string, a: string, org: string, b: string, slot: string, config: string)
    ensures "ExecStart=" + exe + a + org + b + slot + config == ("ExecStart=" + exe + a + org + b + slot) + config
    ensures config == "" ==> "ExecStart=" + exe + a + org + b + slot + config == "ExecStart=" + exe + a + org + b + slot
  {}

  /** An ephemeral unit, line by line: above the marker only the description, the working
      directory and the command vary. */
  lemma LaneLines(o: UnitOptions, org: string, slot: string, dir: string, rest: string)
    requires Free(EphemeralHead(o, org, slot, dir), '\n')
    ensures var lines := Split(EphemeralUnit(o, org, slot, dir, rest), '\n');
      && |lines| == 13 + |Split(rest, '\n')| && lines[13..] == Split(rest, '\n')
      && lines[7] == EphemeralHead(o, org, slot, dir)[7]
      && lines[..7] == ["[Unit]", "Description=srm ephemeral runner slot " + org + "/" + slot + " (managed by srm)",
                        "StartLimitIntervalSec=0", "", "[Service]", "Type=simple", "WorkingDirectory=" + dir]
      && lines[8..13] == ["Restart=always", "RestartSec=3", "KillMode=mixed", "TimeoutStopSec=3600",
                          "# srm-ephemeral-v2"]
  {
    var lines := EphemeralHead(o, org, slot, dir);
    var line := Marker(EPHEMERAL) + Itoa(CURRENT_EPHEMERAL);
    MarkersAre();
    MarkerLine(EPHEMERAL, CURRENT_EPHEMERAL);
    SplitJoin(lines, '\n');
    RenderedLines(Join(lines, '\n'), line, rest);
    Pieces(lines, line, Split(rest, '\n'));
  }

  lemma Pieces(a: seq<string>, line: string, rest: seq<string>)
    requires |a| == 12
    ensures var s := a + ([line] + rest);
      |s| == 13 + |rest| && s[13..] == rest && s[7] == a[7] && s[..7] == a[..7] && s[8..13] == a[8..] + [line]
  {}
}
