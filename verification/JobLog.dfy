/** The store of captured job logs: a sidecar and a log for each run, below one root. */
module JobLog {
  import opened Text
  import opened Sorting

  datatype Meta = Meta(org: string, slot: string, runnerName: string, runnerId: int, started: int,
                       ended: int, ok: bool, hasLog: bool, captured: int)
  {
    function SortKey(): int { if started > 0 then started else captured }
  }

  /** What a file holds; Junk does not parse as a sidecar. */
  datatype File = Sidecar(meta: Meta) | Log(size: nat) | Junk

  type Files = map<string, File>

  const META_EXT := ".json"
  const LOG_EXT := ".log"

  // ---------------------------------------------------------------- paths

  function Underscored(s: string): string {
    if s == "" then "" else [if s[0] == '/' || s[0] == '\\' then '_' else s[0]] + Underscored(s[1..])
  }

  function Sanitize(seg: string): string {
    var s := Underscored(seg);
    if s == "" || s == "." || s == ".." then "_" else s
  }

  /** One component that cannot leave its directory. */
  predicate OneComponent(s: string) {
    '/' !in s && '\\' !in s && s != "" && s != "." && s != ".."
  }

  lemma {:induction false} UnderscoredClean(s: string)
    ensures '/' !in Underscored(s) && '\\' !in Underscored(s)
    ensures |Underscored(s)| == |s|
    ensures forall i :: 0 <= i < |s| ==> Underscored(s)[i] == if s[i] in {'/', '\\'} then '_' else s[i]
    ensures Underscored(s) == s <==> '/' !in s && '\\' !in s
  {
    if s == "" {
    } else {
      UnderscoredClean(s[1..]);
      assert s == [s[0]] + s[1..];
      assert Underscored(s)[1..] == Underscored(s[1..]);
    }
  }

  /** Whatever the name, the segment is one safe component: a safe name is kept as it is, one
      that stands for a directory becomes an underscore, and so does every separator in others. */
  lemma SanitizeSafe(seg: string)
    ensures OneComponent(Sanitize(seg))
    ensures seg in {"", ".", ".."} ==> Sanitize(seg) == "_"
    ensures seg !in {"", ".", ".."} ==>
              |Sanitize(seg)| == |seg| &&
              forall i :: 0 <= i < |seg| ==> Sanitize(seg)[i] == if seg[i] in {'/', '\\'} then '_' else seg[i]
    ensures Sanitize(seg) == seg <==> OneComponent(seg)
  {
    UnderscoredClean(seg);
  }

  /** Where a run with safe names and a known id is kept. */
  lemma PathOf(root: string, m: Meta)
    requires OneComponent(m.org) && OneComponent(m.slot)
    ensures var base := if m.runnerId > 0 then Itoa(m.runnerId) else "unknown";
      var stem := root + "/" + (m.org + "/" + (m.slot + "/" + base));
      LogPath(root, m) == stem + ".log" && MetaPath(root, m) == stem + ".json"
  {
    SanitizeSafe(m.org);
    SanitizeSafe(m.slot);
  }

  function IdBase(id: int): string {
    if id > 0 then Itoa(id) else "unknown"
  }

  function Stem(root: string, m: Meta): string {
    root + "/" + (Sanitize(m.org) + "/" + (Sanitize(m.slot) + "/" + IdBase(m.runnerId)))
  }

  function LogPath(root: string, m: Meta): string { Stem(root, m) + LOG_EXT }
  function MetaPath(root: string, m: Meta): string { Stem(root, m) + META_EXT }

  lemma SameTail(a: string, b: string, ext: string)
    ensures a + ext == b + ext <==> a == b
  {
    assert (a + ext)[..|a + ext| - |ext|] == a;
    assert (b + ext)[..|b + ext| - |ext|] == b;
  }

  /** Logs and sidecars never share a file, and two runs share a log exactly when they share
      a sidecar. */
  lemma PathsApart(root: string, m: Meta, n: Meta)
    ensures LogPath(root, m) != MetaPath(root, n)
    ensures LogPath(root, m) == LogPath(root, n) <==> MetaPath(root, m) == MetaPath(root, n)
    ensures HasSuffix(MetaPath(root, m), META_EXT) && !HasSuffix(LogPath(root, m), META_EXT)
  {
    var l, p := LogPath(root, m), MetaPath(root, n);
    assert l[|l| - 1] == 'g' && p[|p| - 1] == 'n';
    SameTail(Stem(root, m), Stem(root, n), LOG_EXT);
    SameTail(Stem(root, m), Stem(root, n), META_EXT);
  }

  lemma SameHead(r: string, a: string, b: string)
    ensures r + a == r + b <==> a == b
  {
    assert (r + a)[|r|..] == a && (r + b)[|r|..] == b;
  }

  lemma FirstComponent(a: string, x: string, b: string, y: string)
    requires '/' !in a && '/' !in b
    ensures a + "/" + x == b + "/" + y <==> a == b && x == y
  {
    if a + "/" + x == b + "/" + y {
      SplitAppend(a, x, '/');
      SplitAppend(b, y, '/');
      SplitOne(a, '/');
      SplitOne(b, '/');
      assert a == Split(a + "/" + x, '/')[0] == b;
      SameHead(a + "/", x, y);
    }
  }

  lemma IdBaseApart(i: int, j: int)
    ensures IdBase(i) == IdBase(j) <==> i == j || (i <= 0 && j <= 0)
  {
    if i > 0 && j > 0 && IdBase(i) == IdBase(j) { ItoaInjective(i, j); }
    assert "unknown"[0] == 'u';
    assert i > 0 ==> '0' <= IdBase(i)[0] <= '9';
    assert j > 0 ==> '0' <= IdBase(j)[0] <= '9';
  }

  /** One run overwrites another exactly when their names read the same once sanitized and
      their ids are equal, or neither is positive. */
  lemma SharePathIff(root: string, m: Meta, n: Meta)
    ensures MetaPath(root, m) == MetaPath(root, n) <==>
              Sanitize(m.org) == Sanitize(n.org) && Sanitize(m.slot) == Sanitize(n.slot) &&
              (m.runnerId == n.runnerId || (m.runnerId <= 0 && n.runnerId <= 0))
  {
    var mo, ms, mi := Sanitize(m.org), Sanitize(m.slot), IdBase(m.runnerId);
    var no, ns, ni := Sanitize(n.org), Sanitize(n.slot), IdBase(n.runnerId);
    SanitizeSafe(m.org);
    SanitizeSafe(m.slot);
    SanitizeSafe(n.org);
    SanitizeSafe(n.slot);
    SameTail(Stem(root, m), Stem(root, n), META_EXT);
    SameHead(root + "/", mo + "/" + (ms + "/" + mi), no + "/" + (ns + "/" + ni));
    FirstComponent(mo, ms + "/" + mi, no, ns + "/" + ni);
    FirstComponent(ms, mi, ns, ni);
    IdBaseApart(m.runnerId, n.runnerId);
  }

  // ---------------------------------------------------------------- the store as a value

  /** Every sidecar sits at the path of its own contents. */
  ghost predicate Own(root: string, files: Files) {
    forall p :: p in files && files[p].Sidecar? ==> p == MetaPath(root, files[p].meta)
  }

  /** A run recorded with a log has one. */
  ghost predicate LogsKept(root: string, files: Files) {
    forall p :: p in files && files[p].Sidecar? && files[p].meta.hasLog ==> LogPath(root, files[p].meta) in files
  }

  /** The paths of the runs a listing shows. */
  ghost function Listed(files: Files): set<string> {
    set p | p in files && HasSuffix(p, META_EXT) && files[p].Sidecar? && files[p].meta.runnerId != 0
  }

  /** A run is older than the cutoff by its start, or when that is not known by its capture. */
  predicate StartedBefore(m: Meta, cut: int) {
    (m.started > 0 && m.started < cut) || (m.started <= 0 && m.captured < cut)
  }

  ghost function Doomed(files: Files, cut: int): set<string> {
    set p | p in Listed(files) && StartedBefore(files[p].meta, cut)
  }

  /** a is not before b: whatever prunes a prunes b. */
  ghost predicate NotOlder(a: Meta, b: Meta) {
    forall cut: int :: StartedBefore(a, cut) ==> StartedBefore(b, cut)
  }

  ghost predicate LogOf(root: string, files: Files, runs: set<string>, l: string)
    requires runs <= Listed(files)
  {
    exists p :: p in runs && l == LogPath(root, files[p].meta)
  }

  /** The store without those runs' files that could be removed. */
  ghost function Dropped(root: string, files: Files, runs: set<string>, removes: string -> bool): Files
    requires runs <= Listed(files)
  {
    map p | p in files && !(removes(p) && (p in runs || LogOf(root, files, runs, p))) :: files[p]
  }

  function Size(files: Files, l: string): nat {
    if l in files && files[l].Log? then files[l].size else 0
  }

  ghost function Sum(s: set<string>, f: string -> nat): nat {
    if s == {} then 0
    else
      var p :| p in s;
      f(p) + Sum(s - {p}, f)
  }

  lemma {:induction false} SumAdd(s: set<string>, f: string -> nat, p: string)
    requires p in s
    ensures Sum(s, f) == f(p) + Sum(s - {p}, f)
    decreases s
  {
    var q :| q in s && Sum(s, f) == f(q) + Sum(s - {q}, f);
    if p == q {
    } else {
      SumAdd(s - {q}, f, p);
      SumAdd(s - {p}, f, q);
      assert s - {q} - {p} == s - {p} - {q};
    }
  }

  function LogSize(root: string, files: Files): string -> nat {
    p => if p in files && files[p].Sidecar? then Size(files, LogPath(root, files[p].meta)) else 0
  }

  /** The bytes of the logs of some runs. */
  ghost function Bytes(root: string, files: Files, runs: set<string>): nat {
    Sum(runs, LogSize(root, files))
  }

  ghost predicate SameFile(a: Files, b: Files, p: string) {
    (p in a <==> p in b) && (p in a ==> a[p] == b[p])
  }

  /** A pruning whose removals work leaves exactly the listed runs at or after the cutoff,
      each with the log it had, and a second one finds nothing to do. */
  lemma PruneLeavesExactly(root: string, files: Files, cut: int)
    requires Own(root, files)
    ensures var after := Dropped(root, files, Doomed(files, cut), _ => true);
      && Own(root, after) && (LogsKept(root, files) ==> LogsKept(root, after))
      && Listed(after) == Listed(files) - Doomed(files, cut)
      && (forall p :: p in Listed(after) ==>
            !StartedBefore(files[p].meta, cut) && after[p] == files[p] &&
            SameFile(files, after, LogPath(root, files[p].meta)))
      && (forall p :: p in Doomed(files, cut) ==> p !in after && LogPath(root, files[p].meta) !in after)
      && Doomed(after, cut) == {}
  {
    var gone := Doomed(files, cut);
    var after := Dropped(root, files, gone, _ => true);
    forall p | p in files && files[p].Sidecar? && p !in gone
      ensures p in after && !LogOf(root, files, gone, LogPath(root, files[p].meta))
    {
      SurvivorKept(root, files, gone, p);
    }
    forall p | p in gone ensures LogPath(root, files[p].meta) !in after {
      assert LogOf(root, files, gone, LogPath(root, files[p].meta));
    }
    forall p | p in after && files[p].Sidecar? ensures LogPath(root, files[p].meta) !in gone {
      forall q | q in gone ensures LogPath(root, files[p].meta) != q { PathsApart(root, files[p].meta, files[q].meta); }
    }
  }

  /** A run before the cutoff survives a pruning whose removals work if and only if its id
      is 0, which no listing shows. */
  lemma PruneSparesUnlistedIff(root: string, files: Files, cut: int, p: string)
    requires Own(root, files) && p in files && files[p].Sidecar? && StartedBefore(files[p].meta, cut)
    ensures p in Dropped(root, files, Doomed(files, cut), _ => true) <==> files[p].meta.runnerId == 0
  {
    PathsApart(root, files[p].meta, files[p].meta);
    if files[p].meta.runnerId == 0 {
      SurvivorKept(root, files, Doomed(files, cut), p);
    }
  }

  lemma SurvivorKept(root: string, files: Files, gone: set<string>, p: string)
    requires Own(root, files) && gone <= Listed(files)
    requires p in files && files[p].Sidecar? && p !in gone
    ensures !LogOf(root, files, gone, p)
    ensures !LogOf(root, files, gone, LogPath(root, files[p].meta))
  {
    forall q | q in gone ensures p != LogPath(root, files[q].meta)
      ensures LogPath(root, files[p].meta) != LogPath(root, files[q].meta)
    {
      PathsApart(root, files[q].meta, files[p].meta);
    }
  }

  // ---------------------------------------------------------------- sorting

  function Newer(a: Meta, b: Meta): bool {
    a.SortKey() > b.SortKey()
  }

  ghost predicate NewestFirst(ms: seq<Meta>) {
    forall i, j :: 0 <= i < j < |ms| ==> NotOlder(ms[i], ms[j])
  }

  lemma NewerSorts(ms: seq<Meta>)
    requires Sorted(ms, Newer)
    ensures NewestFirst(ms)
  {
    forall i, j | 0 <= i < j < |ms| ensures NotOlder(ms[i], ms[j]) { assert !Newer(ms[j], ms[i]); }
  }

  // ---------------------------------------------------------------- the store on disk

  /** A list of runs shows the sidecars at some paths. */
  ghost predicate Shows(files: Files, paths: set<string>, ms: seq<Meta>)
    requires paths <= Listed(files)
  {
    |ms| == |paths| && forall m :: m in ms <==> exists p :: p in paths && files[p].meta == m
  }

  lemma ShowsNext(root: string, files: Files, paths: set<string>, ms: seq<Meta>, p: string)
    requires paths <= Listed(files) && p in Listed(files) && p !in paths && Shows(files, paths, ms)
    ensures Shows(files, paths + {p}, ms + [files[p].meta])
    ensures Own(root, files) && Once(ms) ==> Once(ms + [files[p].meta])
  {
    var m := files[p].meta;
    forall n ensures n in ms + [m] <==> exists q :: q in paths + {p} && files[q].meta == n {
      if n in ms {
        var q :| q in paths && files[q].meta == n;
        assert q in paths + {p};
      } else if n == m {
        assert p in paths + {p};
      }
    }
    if Own(root, files) && Once(ms) {
      assert m !in ms;
    }
  }

  /** What becomes of copying the log: no source or no destination, part of it, all of it. */
  datatype Copy = NoCopy | Part(size: nat) | Whole(size: nat)

  /** A write that touches a run's two files only, and puts the run's own record in the
      sidecar. */
  ghost predicate Wrote(root: string, was: Files, now: Files, m: Meta, rec: Meta) {
    var p, l := MetaPath(root, m), LogPath(root, m);
    && rec == m.(hasLog := rec.hasLog)
    && (forall q :: q != p && q != l ==> SameFile(was, now, q))
    && (SameFile(was, now, p) || (p in now && (now[p] == Sidecar(rec) || now[p] == Junk)))
    && (SameFile(was, now, l) || (l in now && now[l].Log?))
  }

  lemma WriteKeepsOwn(root: string, was: Files, now: Files, m: Meta, rec: Meta)
    requires Wrote(root, was, now, m, rec) && Own(root, was)
    ensures Own(root, now)
  {
    assert MetaPath(root, rec) == MetaPath(root, m);
    forall p | p in now && now[p].Sidecar? ensures p == MetaPath(root, now[p].meta) {
      assert SameFile(was, now, p) || (p == MetaPath(root, m) && now[p] == Sidecar(rec));
    }
  }

  lemma WriteKeepsLogs(root: string, was: Files, now: Files, m: Meta, rec: Meta)
    requires Wrote(root, was, now, m, rec) && Own(root, was) && LogsKept(root, was)
    requires rec.hasLog ==> LogPath(root, m) in now
    ensures LogsKept(root, now)
  {
    assert LogPath(root, rec) == LogPath(root, m);
    forall p | p in now && now[p].Sidecar? && now[p].meta.hasLog ensures LogPath(root, now[p].meta) in now {
      if now[p] != Sidecar(rec) {
        assert SameFile(was, now, p);
        var l := LogPath(root, was[p].meta);
        PathsApart(root, m, was[p].meta);
        assert SameFile(was, now, l) || l in now;
      }
    }
  }

  /** What becomes of writing the sidecar. */
  datatype Record = Unopened | Torn | Written

  class Store {
    const root: string
    var files: Files

    constructor (root: string)
      ensures this.root == root && files == map[] && Own(root, files) && LogsKept(root, files)
    {
      this.root, files := root, map[];
    }

    /** Write. An error while copying the log is not fatal; one on the sidecar is reported,
        and may leave a torn file that no listing shows. */
    method Write(m: Meta, dirOk: bool, copy: Copy, record: Record) returns (ok: bool)
      modifies this`files
      ensures ok <==> dirOk && record.Written?
      ensures !dirOk ==> files == old(files)
      ensures Own(root, old(files)) ==> Own(root, files)
      ensures Own(root, old(files)) && LogsKept(root, old(files)) && !m.hasLog ==> LogsKept(root, files)
      ensures ok ==> MetaPath(root, m) in files
      ensures ok ==> files[MetaPath(root, m)] == Sidecar(m.(hasLog := m.hasLog || copy.Whole?))
      ensures dirOk && (copy.Whole? || copy.Part?) ==>
                LogPath(root, m) in files && files[LogPath(root, m)] == Log(copy.size)
      ensures forall p :: p !in {MetaPath(root, m), LogPath(root, m)} ==> SameFile(old(files), files, p)
    {
      if !dirOk { return false; }
      ghost var was := files;
      var rec := m;
      CopyLog(LogPath(root, m), copy);
      ghost var copied := files;
      if copy.Whole? {
        rec := m.(hasLog := true);
      }
      ok := WriteSidecar(MetaPath(root, m), rec, record);
      PathsApart(root, m, m);
      forall q | q != LogPath(root, m) && q != MetaPath(root, m) ensures SameFile(was, files, q) {
        assert SameFile(was, copied, q) && SameFile(copied, files, q);
      }
      assert SameFile(copied, files, LogPath(root, m)) && SameFile(was, copied, MetaPath(root, m));
      if Own(root, was) { WriteKeepsOwn(root, was, files, m, rec); }
      if Own(root, was) && LogsKept(root, was) && !m.hasLog { WriteKeepsLogs(root, was, files, m, rec); }
    }

    /** copyFile, when there is a source to copy. */
    method CopyLog(l: string, copy: Copy)
      modifies this`files
      ensures if copy.NoCopy? then files == old(files) else l in files && files[l] == Log(copy.size)
      ensures forall p :: p != l ==> SameFile(old(files), files, p)
    {
      if !copy.NoCopy? {
        files := files[l := Log(copy.size)];
      }
    }

    method WriteSidecar(p: string, rec: Meta, record: Record) returns (ok: bool)
      modifies this`files
      ensures ok <==> record.Written?
      ensures if record.Unopened? then files == old(files)
              else p in files && files[p] == if record.Written? then Sidecar(rec) else Junk
      ensures forall q :: q != p ==> SameFile(old(files), files, q)
    {
      if !record.Unopened? {
        files := files[p := if record.Written? then Sidecar(rec) else Junk];
      }
      ok := record.Written?;
    }

    /** List: an error when the root cannot be read, else the walk and the sort. A root that is
        not there holds no files. */
    method List(denied: bool) returns (ok: bool, out: seq<Meta>)
      ensures ok <==> !denied
      ensures if ok then NewestFirst(out) && Shows(files, Listed(files), out) else out == []
      ensures Own(root, files) ==> Once(out)
    {
      ok := !denied;
      if denied { return false, []; }
      var here, rest := files, files.Keys;
      ghost var seen: set<string> := {};
      out := [];
      while rest != {}
        invariant rest <= here.Keys && seen <= Listed(here) && Shows(here, seen, out)
        invariant forall p :: p in Listed(here) ==> (p in seen <==> p !in rest)
        invariant Own(root, here) ==> Once(out)
        decreases rest
      {
        var p :| p in rest;
        rest := rest - {p};
        if HasSuffix(p, META_EXT) && here[p].Sidecar? && here[p].meta.runnerId != 0 {
          ShowsNext(root, here, seen, out, p);
          out, seen := out + [here[p].meta], seen + {p};
        }
      }
      assert seen == Listed(here);
      ghost var walked := out;
      out := Sort(out, Newer);
      Rearranged(walked, out);
      NewerSorts(out);
    }

    /** Prune. `removes`: which files can be removed; the pass ignores those that cannot. */
    method Prune(denied: bool, cut: int, dryRun: bool, removes: string -> bool)
      returns (ok: bool, entries: nat, bytes: nat)
      requires Own(root, files)
      modifies this`files
      ensures ok <==> !denied
      ensures !ok ==> entries == bytes == 0 && files == old(files)
      ensures ok ==> entries == |Doomed(old(files), cut)|
      ensures ok ==> bytes == Bytes(root, old(files), Doomed(old(files), cut))
      ensures ok ==>
                files == if dryRun then old(files) else Dropped(root, old(files), Doomed(old(files), cut), removes)
    {
      var all;
      ok, all := List(denied);
      entries, bytes := 0, 0;
      if ok {
        entries, bytes := PruneListed(all, cut, dryRun, removes);
      }
    }

    /** Its loop, over the runs listed. */
    method PruneListed(all: seq<Meta>, cut: int, dryRun: bool, removes: string -> bool)
      returns (entries: nat, bytes: nat)
      requires Own(root, files) && Shows(files, Listed(files), all) && Once(all)
      modifies this`files
      ensures entries == |Doomed(old(files), cut)|
      ensures bytes == Bytes(root, old(files), Doomed(old(files), cut))
      ensures files == if dryRun then old(files) else Dropped(root, old(files), Doomed(old(files), cut), removes)
    {
      ghost var was := files;
      ghost var done: set<string> := {};
      entries, bytes := 0, 0;
      for i := 0 to |all|
        invariant Progress(was, cut, all, i, done, dryRun, removes)
        invariant entries == |done| && bytes == Bytes(root, was, done)
      {
        var n, size;
        n, size, done := PruneOne(was, done, all, i, cut, dryRun, removes);
        entries, bytes := entries + n, bytes + size;
      }
      DoneAll(was, cut, all, done);
    }

    /** After the first i runs of the listing, those in `done` are dealt with. */
    ghost predicate Progress(was: Files, cut: int, all: seq<Meta>, i: nat, done: set<string>, dryRun: bool,
                             removes: string -> bool)
      reads this
    {
      && i <= |all| && DoneUpTo(was, cut, all[..i], done)
      && files == if dryRun then was else Dropped(root, was, done, removes)
    }

    /** One round: count the run, and unless dry-running remove its log and its sidecar. */
    method PruneOne(ghost was: Files, ghost done: set<string>, all: seq<Meta>, i: nat, cut: int, dryRun: bool,
                    removes: string -> bool)
      returns (n: nat, size: nat, ghost next: set<string>)
      requires Own(root, was) && Shows(was, Listed(was), all) && Once(all)
      requires i < |all| && Progress(was, cut, all, i, done, dryRun, removes)
      modifies this`files
      ensures Progress(was, cut, all, i + 1, next, dryRun, removes)
      ensures |next| == |done| + n && Bytes(root, was, next) == Bytes(root, was, done) + size
    {
      var m := all[i];
      n, size, next := 0, 0, done;
      DoneNext(root, was, cut, all, i, done);
      if m.SortKey() >= cut { return; }
      ghost var p := MetaPath(root, m);
      CountOne(root, was, done, p, removes);
      DropOne(root, was, done, p, removes);
      var l := LogPath(root, m);
      n, size, next := 1, if l in files && files[l].Log? then files[l].size else 0, done + {p};
      if !dryRun {
        Remove(LogPath(root, m), removes);
        Remove(MetaPath(root, m), removes);
      }
    }

    method Remove(p: string, removes: string -> bool)
      modifies this`files
      ensures files == if removes(p) then old(files) - {p} else old(files)
    {
      if removes(p) { files := files - {p}; }
    }
  }

  /** The condemned runs among those passed. */
  ghost predicate DoneUpTo(files: Files, cut: int, passed: seq<Meta>, done: set<string>) {
    done <= Listed(files) && forall p :: p in done <==> p in Doomed(files, cut) && files[p].meta in passed
  }

  lemma DoneNext(root: string, files: Files, cut: int, all: seq<Meta>, i: nat, done: set<string>)
    requires Own(root, files) && i < |all| && Shows(files, Listed(files), all) && Once(all)
    requires DoneUpTo(files, cut, all[..i], done)
    ensures var m := all[i];
      if StartedBefore(m, cut) then
        var p := MetaPath(root, m);
        p in Listed(files) && p !in done && files[p].meta == m && DoneUpTo(files, cut, all[..i + 1], done + {p})
      else DoneUpTo(files, cut, all[..i + 1], done)
  {
    assert all[..i + 1] == all[..i] + [all[i]] && all[i] in all;
    ListedAt(root, files, all[i]);
  }

  lemma DoneAll(files: Files, cut: int, all: seq<Meta>, done: set<string>)
    requires Shows(files, Listed(files), all) && DoneUpTo(files, cut, all[..|all|], done)
    ensures done == Doomed(files, cut)
  {
    assert all[..|all|] == all;
  }

  lemma ListedAt(root: string, files: Files, m: Meta)
    requires Own(root, files) && exists p :: p in Listed(files) && files[p].meta == m
    ensures MetaPath(root, m) in Listed(files) && files[MetaPath(root, m)].meta == m
    ensures forall p :: p in Listed(files) && files[p].meta == m ==> p == MetaPath(root, m)
  {}

  /** A run not yet dropped still has its log. */
  lemma LogUntouched(root: string, files: Files, done: set<string>, p: string, removes: string -> bool)
    requires Own(root, files) && done <= Listed(files) && p in Listed(files) && p !in done
    ensures var l := LogPath(root, files[p].meta); SameFile(files, Dropped(root, files, done, removes), l)
  {
    SurvivorKept(root, files, done, p);
    forall q | q in done ensures LogPath(root, files[p].meta) != q { PathsApart(root, files[p].meta, files[q].meta); }
  }

  lemma DropOne(root: string, files: Files, done: set<string>, p: string, removes: string -> bool)
    requires done <= Listed(files) && p in Listed(files)
    ensures var l, before := LogPath(root, files[p].meta), Dropped(root, files, done, removes);
      var noLog := if removes(l) then before - {l} else before;
      Dropped(root, files, done + {p}, removes) == if removes(p) then noLog - {p} else noLog
  {
    forall l
      ensures LogOf(root, files, done + {p}, l) <==> LogOf(root, files, done, l) || l == LogPath(root, files[p].meta)
    {
      if LogOf(root, files, done, l) {
        var q :| q in done && l == LogPath(root, files[q].meta);
        assert q in done + {p};
      }
      if l == LogPath(root, files[p].meta) { assert p in done + {p}; }
    }
  }

  /** What one round of the pruning counts. */
  lemma CountOne(root: string, files: Files, done: set<string>, p: string, removes: string -> bool)
    requires Own(root, files) && done <= Listed(files) && p in Listed(files) && p !in done
    ensures var l := LogPath(root, files[p].meta);
      Bytes(root, files, done + {p}) == Bytes(root, files, done) + Size(files, l) &&
      Size(Dropped(root, files, done, removes), l) == Size(files, l)
  {
    LogUntouched(root, files, done, p, removes);
    SumAdd(done + {p}, LogSize(root, files), p);
    assert done + {p} - {p} == done;
  }
}
