/** Agent versions: their order, and the download URLs and cache paths they are read from. */
module Versions {
  import opened Text

  // ---------------------------------------------------------------- order

  /** One dotted field as a number: 0 when it is missing or is not a number. */
  function Field(parts: seq<string>, i: nat): int {
    if i >= |parts| then 0
    else match Atoi(parts[i])
         case Good(n) => n
         case _ => 0
  }

  function Max(a: nat, b: nat): nat {
    if a < b then b else a
  }

  /** What the comparison means: the sign of the first field that differs, all missing
      fields being 0, and 0 when no field differs. */
  ghost predicate Orders(a: string, b: string, r: int) {
    var x, y := Split(a, '.'), Split(b, '.');
    if r == 0 then forall i: nat :: Field(x, i) == Field(y, i)
    else
      (r == 1 || r == -1) &&
      exists i: nat :: FirstDiffers(x, y, i) && (r == -1 <==> Field(x, i) < Field(y, i))
  }

  ghost predicate FirstDiffers(x: seq<string>, y: seq<string>, i: nat) {
    Field(x, i) != Field(y, i) && forall j: nat :: j < i ==> Field(x, j) == Field(y, j)
  }

  lemma OrdersUnique(a: string, b: string, r: int, q: int)
    requires Orders(a, b, r) && Orders(a, b, q)
    ensures r == q
  {
    var x, y := Split(a, '.'), Split(b, '.');
    if r != 0 && q != 0 {
      var i: nat :| FirstDiffers(x, y, i) && (r == -1 <==> Field(x, i) < Field(y, i));
      var j: nat :| FirstDiffers(x, y, j) && (q == -1 <==> Field(x, j) < Field(y, j));
      assert i == j;
    }
  }

  /** CompareVersions. */
  method CompareVersions(a: string, b: string) returns (r: int)
    ensures Orders(a, b, r)
    ensures r == Compare(a, b)
  {
    var x, y := Split(a, '.'), Split(b, '.');
    var n := Max(|x|, |y|);
    CompareOrders(a, b);
    for i := 0 to n
      invariant CompareFrom(x, y, 0) == CompareFrom(x, y, i)
    {
      if Field(x, i) < Field(y, i) {
        return -1;
      }
      if Field(x, i) > Field(y, i) {
        return 1;
      }
    }
    r := 0;
  }

  function CompareFrom(x: seq<string>, y: seq<string>, i: nat): int
    decreases Max(|x|, |y|) - i
  {
    if i >= Max(|x|, |y|) then 0
    else if Field(x, i) < Field(y, i) then -1
    else if Field(x, i) > Field(y, i) then 1
    else CompareFrom(x, y, i + 1)
  }

  function Compare(a: string, b: string): int {
    CompareFrom(Split(a, '.'), Split(b, '.'), 0)
  }

  lemma {:induction false} CompareFromOrders(x: seq<string>, y: seq<string>, i: nat)
    requires forall j: nat :: j < i ==> Field(x, j) == Field(y, j)
    ensures var r := CompareFrom(x, y, i);
      if r == 0 then forall j: nat :: Field(x, j) == Field(y, j)
      else (r == 1 || r == -1) && exists j: nat :: FirstDiffers(x, y, j) && (r == -1 <==> Field(x, j) < Field(y, j))
    decreases Max(|x|, |y|) - i
  {
    if i >= Max(|x|, |y|) {
    } else if Field(x, i) == Field(y, i) {
      CompareFromOrders(x, y, i + 1);
    } else {
      assert FirstDiffers(x, y, i);
    }
  }

  lemma CompareOrders(a: string, b: string)
    ensures Orders(a, b, Compare(a, b))
  {
    CompareFromOrders(Split(a, '.'), Split(b, '.'), 0);
  }

  /** Equivalence is agreement on every field. */
  lemma CompareEquivalent(a: string, b: string)
    ensures Compare(a, b) == 0 <==> forall i: nat :: Field(Split(a, '.'), i) == Field(Split(b, '.'), i)
  {
    CompareOrders(a, b);
    if Compare(a, b) != 0 {
      var i: nat :| FirstDiffers(Split(a, '.'), Split(b, '.'), i);
      assert Field(Split(a, '.'), i) != Field(Split(b, '.'), i);
    }
  }

  /** Swapping the arguments flips the sign: the order is total, and antisymmetric up to
      equivalence. */
  lemma CompareFlips(a: string, b: string)
    ensures Compare(a, b) == -Compare(b, a)
  {
    CompareOrders(a, b);
    CompareOrders(b, a);
    var x, y := Split(a, '.'), Split(b, '.');
    if Compare(a, b) != 0 {
      var i: nat :| FirstDiffers(x, y, i) && (Compare(a, b) == -1 <==> Field(x, i) < Field(y, i));
      assert FirstDiffers(y, x, i);
      OrdersUnique(b, a, Compare(b, a), -Compare(a, b));
    } else {
      OrdersUnique(b, a, Compare(b, a), 0);
    }
  }

  /** Transitive on all strings, whatever their number of fields. */
  lemma CompareTransitive(a: string, b: string, c: string)
    requires Compare(a, b) <= 0 && Compare(b, c) <= 0
    ensures Compare(a, c) <= 0
    ensures Compare(a, c) == 0 ==> Compare(a, b) == 0 && Compare(b, c) == 0
  {
    CompareOrders(a, b);
    CompareOrders(b, c);
    CompareOrders(a, c);
    var x, y, z := Split(a, '.'), Split(b, '.'), Split(c, '.');
    if Compare(a, b) == 0 && Compare(b, c) == 0 {
      assert forall i: nat :: Field(x, i) == Field(z, i);
      OrdersUnique(a, c, Compare(a, c), 0);
    } else {
      var m := FirstBelow(x, y, z, Compare(a, b), Compare(b, c));
      assert FirstDiffers(x, z, m);
      OrdersUnique(a, c, Compare(a, c), -1);
    }
  }

  /** Where x first falls below z, given where it falls below y and y below z. */
  lemma FirstBelow(x: seq<string>, y: seq<string>, z: seq<string>, p: int, q: int) returns (m: nat)
    requires p == 0 || p == -1
    requires q == 0 || q == -1
    requires p != 0 || q != 0
    requires if p == 0 then forall i: nat :: Field(x, i) == Field(y, i)
             else exists i: nat :: FirstDiffers(x, y, i) && Field(x, i) < Field(y, i)
    requires if q == 0 then forall i: nat :: Field(y, i) == Field(z, i)
             else exists i: nat :: FirstDiffers(y, z, i) && Field(y, i) < Field(z, i)
    ensures FirstDiffers(x, z, m) && Field(x, m) < Field(z, m)
  {
    if p == 0 {
      m :| FirstDiffers(y, z, m) && Field(y, m) < Field(z, m);
    } else {
      m :| FirstDiffers(x, y, m) && Field(x, m) < Field(y, m);
      if q != 0 {
        var k: nat :| FirstDiffers(y, z, k) && Field(y, k) < Field(z, k);
        m := if k < m then k else m;
      }
    }
  }

  /** Trailing zero fields do not count. */
  lemma TrailingZeroField(a: string)
    ensures Compare(a, a + ".0") == 0
  {
    var x, y := Split(a, '.'), Split(a + ".0", '.');
    assert a + ".0" == a + ['.'] + "0";
    SplitAppend(a, "0", '.');
    SplitOne("0", '.');
    assert y == x + ["0"];
    AtoiItoa(0);
    forall i: nat ensures Field(x, i) == Field(y, i) {
      if i < |x| { assert y[i] == x[i]; } else if i == |x| { assert y[i] == "0" == Itoa(0); }
    }
    CompareEquivalent(a, a + ".0");
  }

  // ---------------------------------------------------------------- versions as numbers

  function Printed(x: seq<int>): seq<string> {
    seq(|x|, i requires 0 <= i < |x| => Decimal(x[i]))
  }

  /** The version with these numbers. */
  function Dotted(x: seq<int>): string {
    Join(Printed(x), '.')
  }

  ghost predicate Ints(x: seq<int>) {
    forall i :: 0 <= i < |x| ==> MIN_INT <= x[i] <= MAX_INT
  }

  /** The i-th number, 0 when there is none. */
  function NumberAt(x: seq<int>, i: nat): int {
    if i < |x| then x[i] else 0
  }

  /** x is smaller where the two first differ. */
  ghost predicate Smaller(x: seq<int>, y: seq<int>) {
    exists i: nat :: SmallerAt(x, y, i)
  }

  ghost predicate SmallerAt(x: seq<int>, y: seq<int>, i: nat) {
    NumberAt(x, i) < NumberAt(y, i) && forall j: nat :: j < i ==> NumberAt(x, j) == NumberAt(y, j)
  }

  lemma DottedFields(x: seq<int>)
    requires x != [] && Ints(x)
    ensures Split(Dotted(x), '.') == Printed(x)
    ensures forall i: nat :: Field(Printed(x), i) == NumberAt(x, i)
  {
    var parts := Printed(x);
    forall i | 0 <= i < |parts| ensures '.' !in parts[i] { DecimalDigits(x[i]); }
    SplitJoin(parts, '.');
    forall i: nat ensures Field(parts, i) == NumberAt(x, i) {
      if i < |x| { AtoiDecimal(x[i]); }
    }
  }

  /** On versions made of numbers the comparison is that of the numbers, missing ones being 0:
      -1 exactly when a is smaller where they first differ, 1 exactly when b is, 0 exactly when
      they never differ. */
  lemma CompareNumbers(x: seq<int>, y: seq<int>)
    requires x != [] && y != [] && Ints(x) && Ints(y)
    ensures var r := Compare(Dotted(x), Dotted(y));
      && -1 <= r <= 1 && (r == -1 <==> Smaller(x, y)) && (r == 1 <==> Smaller(y, x))
      && (r == 0 <==> forall i: nat :: NumberAt(x, i) == NumberAt(y, i))
  {
    DottedFields(x);
    DottedFields(y);
    CompareOrders(Dotted(x), Dotted(y));
    DiffersAlike(Printed(x), Printed(y), x, y, Compare(Dotted(x), Dotted(y)));
  }

  /** x is not smaller and larger where they first differ, nor different and equal. */
  lemma SmallerOneWay(x: seq<int>, y: seq<int>, i: nat)
    requires SmallerAt(x, y, i)
    ensures !Smaller(y, x) && NumberAt(x, i) != NumberAt(y, i)
  {}

  lemma DiffersAlike(p: seq<string>, q: seq<string>, x: seq<int>, y: seq<int>, r: int)
    requires forall i: nat :: Field(p, i) == NumberAt(x, i)
    requires forall i: nat :: Field(q, i) == NumberAt(y, i)
    requires if r == 0 then forall i: nat :: Field(p, i) == Field(q, i)
             else (r == 1 || r == -1) &&
                  exists i: nat :: FirstDiffers(p, q, i) && (r == -1 <==> Field(p, i) < Field(q, i))
    ensures (r == -1 <==> Smaller(x, y)) && (r == 1 <==> Smaller(y, x))
    ensures r == 0 <==> forall i: nat :: NumberAt(x, i) == NumberAt(y, i)
  {
    if r == 0 {
      forall i: nat ensures NumberAt(x, i) == NumberAt(y, i) { assert Field(p, i) == Field(q, i); }
    } else {
      var i: nat :| FirstDiffers(p, q, i) && (r == -1 <==> Field(p, i) < Field(q, i));
      forall j: nat | j < i ensures NumberAt(x, j) == NumberAt(y, j) { assert Field(p, j) == Field(q, j); }
      if r == -1 {
        assert SmallerAt(x, y, i);
        SmallerOneWay(x, y, i);
      } else {
        assert Field(p, i) == NumberAt(x, i) && Field(q, i) == NumberAt(y, i) && Field(p, i) != Field(q, i);
        assert SmallerAt(y, x, i);
        SmallerOneWay(y, x, i);
      }
    }
  }

  /** Different numbers make different versions, none of them empty. */
  lemma DottedApart(x: seq<int>, y: seq<int>)
    requires x != [] && y != [] && Ints(x) && Ints(y)
    ensures Dotted(x) == Dotted(y) <==> x == y
    ensures Dotted(x) != ""
  {
    DottedFields(x);
    DottedFields(y);
    if Dotted(x) == Dotted(y) {
      assert |Printed(x)| == |x| && |Printed(y)| == |y|;
      forall i | 0 <= i < |x| ensures x[i] == y[i] {
        assert Field(Printed(x), i) == Field(Printed(y), i);
      }
    }
    DecimalDigits(x[0]);
    assert Printed(x)[0] != "" && Split("", '.') == [""];
  }

  /** A field that is no int compares as 0. */
  lemma NonNumberIsZero(parts: seq<string>, i: nat)
    requires i < |parts| && Free(parts, '.') && !Atoi(parts[i]).Good?
    ensures Compare(Join(parts, '.'), Join(parts[i := "0"], '.')) == 0
  {
    var zeroed := parts[i := "0"];
    SplitJoin(parts, '.');
    SplitJoin(zeroed, '.');
    AtoiItoa(0);
    assert "0" == Itoa(0);
    forall j: nat ensures Field(parts, j) == Field(zeroed, j) {}
    CompareEquivalent(Join(parts, '.'), Join(zeroed, '.'));
  }

  // ---------------------------------------------------------------- download URLs

  const ASSET_PREFIX := "actions-runner-linux-x64-"
  const ASSET_SUFFIX := ".tar.gz"
  const RELEASE_BASE := "https://github.com/actions/runner/releases/download"
  const AGENT_CACHE_ROOT := "/var/lib/srm/agent-cache"

  function AssetName(version: string): string {
    ASSET_PREFIX + version + ASSET_SUFFIX
  }

  function DownloadURL(version: string): string {
    RELEASE_BASE + "/v" + version + "/" + AssetName(version)
  }

  function TrimSlashes(p: string): string {
    if p != "" && p[|p| - 1] == '/' then TrimSlashes(p[..|p| - 1]) else p
  }

  function AfterSlash(p: string): string {
    if '/' !in p then p else AfterSlash(p[1..])
  }

  /** path.Base and, on Linux, filepath.Base. */
  function Base(p: string): string {
    if p == "" then "."
    else if TrimSlashes(p) == "" then "/" else AfterSlash(TrimSlashes(p))
  }

  predicate Marked(s: string) {
    '?' in s || '#' in s
  }

  /** The part before the first query or fragment mark. */
  function BeforeMark(s: string): string {
    if s == "" || s[0] == '?' || s[0] == '#' then "" else [s[0]] + BeforeMark(s[1..])
  }

  predicate IsAsset(name: string) {
    HasPrefix(name, ASSET_PREFIX) && HasSuffix(name, ASSET_SUFFIX)
  }

  /** The prefix and the suffix of an asset name never overlap, so slicing between them is
      within bounds. */
  lemma AssetBounds(name: string)
    requires IsAsset(name)
    ensures |ASSET_PREFIX| + |ASSET_SUFFIX| <= |name|
    ensures AssetName(name[|ASSET_PREFIX|..|name| - |ASSET_SUFFIX|]) == name
  {
    var p, s := ASSET_PREFIX, ASSET_SUFFIX;
    var dot := |name| - |s|;
    assert name[dot] == name[dot..][0] == '.';
    assert forall i :: 0 <= i < |p| ==> name[i] == name[..|p|][i] != '.' by {
      assert '.' !in p;
    }
    assert |p| <= dot;
    assert name == name[..|p|] + name[|p|..dot] + name[dot..];
  }

  /** VersionFromURL: "" when the name is not an asset of this build. */
  method VersionFromURL(url: string) returns (v: string)
    ensures v == Version(url)
  {
    var base := BeforeMark(Base(url));
    if !IsAsset(base) {
      return "";
    }
    AssetBounds(base);
    v := base[|ASSET_PREFIX|..|base| - |ASSET_SUFFIX|];
  }

  function Version(url: string): string {
    var base := BeforeMark(Base(url));
    if IsAsset(base) then
      AssetBounds(base);
      base[|ASSET_PREFIX|..|base| - |ASSET_SUFFIX|]
    else ""
  }

  /** cachePath: the URL's last component in the cache. Joining paths resolves "..". */
  function CachePath(url: string): string {
    var base := Base(url);
    if base == ".." then "/var/lib/srm"
    else AGENT_CACHE_ROOT + "/" + if base == "." || base == "/" then "actions-runner.tar.gz" else base
  }

  predicate Slashes(p: string) {
    forall i :: 0 <= i < |p| ==> p[i] == '/'
  }

  lemma {:induction false} TrimSlashesTail(p: string, tail: string)
    requires Slashes(tail) && (p == "" || p[|p| - 1] != '/')
    ensures TrimSlashes(p + tail) == p
    decreases |tail|
  {
    if tail == "" {
      assert p + tail == p;
    } else {
      var rest := tail[..|tail| - 1];
      assert (p + tail)[..|p + tail| - 1] == p + rest && (p + tail)[|p + tail| - 1] == '/';
      TrimSlashesTail(p, rest);
    }
  }

  /** The last component of a path: what stands after the last slash, slashes at the end aside. */
  lemma BaseIs(dir: string, name: string, tail: string)
    requires name != "" && '/' !in name && Slashes(tail)
    ensures Base(dir + "/" + name + tail) == name && Base(name + tail) == name
  {
    var whole := dir + "/" + name;
    assert whole[|whole| - 1] == name[|name| - 1] && name[|name| - 1] in name;
    TrimSlashesTail(whole, tail);
    TrimSlashesTail(name, tail);
    AfterSlashLast(dir, name);
  }

  lemma NoComponent(tail: string)
    requires Slashes(tail)
    ensures Base(tail) == if tail == "" then "." else "/"
  {
    TrimSlashesTail("", tail);
    assert "" + tail == tail;
  }

  lemma CachedUnder(url: string, name: string)
    requires Base(url) == name && '/' !in name && name !in {"", ".", ".."}
    ensures CachePath(url) == "/var/lib/srm/agent-cache" + "/" + name
  {
    assert name != "/";
  }

  /** Where a URL is cached: by its last component, slashes at the end aside, and by a fixed name
      when it has none. */
  lemma CachePathIs(dir: string, name: string, tail: string)
    requires Slashes(tail)
    ensures name !in {"", ".", ".."} && '/' !in name ==>
              CachePath(dir + "/" + name + tail) == "/var/lib/srm/agent-cache" + "/" + name
    ensures CachePath(tail) == "/var/lib/srm/agent-cache" + "/" + "actions-runner.tar.gz"
    ensures CachePath(dir + "/" + "." + tail) == "/var/lib/srm/agent-cache" + "/" + "actions-runner.tar.gz"
    ensures CachePath(dir + "/" + ".." + tail) == "/var/lib/srm"
  {
    NoComponent(tail);
    BaseIs(dir, ".", tail);
    BaseIs(dir, "..", tail);
    if name !in {"", ".", ".."} && '/' !in name {
      BaseIs(dir, name, tail);
      CachedUnder(dir + "/" + name + tail, name);
    }
  }

  lemma {:induction false} BeforeMarkUnmarked(s: string)
    ensures !Marked(s) ==> BeforeMark(s) == s
    ensures Marked(s) ==> |BeforeMark(s)| < |s|
    ensures forall c :: c in BeforeMark(s) ==> c in s
    ensures !Marked(BeforeMark(s)) && BeforeMark(s) <= s
  {
    if s == "" {
    } else {
      BeforeMarkUnmarked(s[1..]);
      assert s == [s[0]] + s[1..];
    }
  }

  lemma {:induction false} AfterSlashLast(a: string, b: string)
    requires '/' !in b
    ensures AfterSlash(a + "/" + b) == b
  {
    var whole := a + "/" + b;
    assert whole[|a|] == '/';
    if a == "" {
      assert whole[1..] == b;
    } else {
      assert whole[1..] == a[1..] + "/" + b;
      AfterSlashLast(a[1..], b);
    }
  }

  lemma BaseLast(a: string, b: string)
    requires b != "" && '/' !in b
    ensures Base(a + "/" + b) == b
  {
    var whole := a + "/" + b;
    assert whole[|whole| - 1] == b[|b| - 1];
    AfterSlashLast(a, b);
  }

  lemma {:induction false} AfterSlashClean(p: string)
    ensures '/' !in AfterSlash(p)
    decreases |p|
  {
    if '/' !in p {
    } else {
      AfterSlashClean(p[1..]);
    }
  }

  lemma AssetNameClean(v: string)
    requires '/' !in v && !Marked(v)
    ensures '/' !in AssetName(v) && !Marked(AssetName(v)) && IsAsset(AssetName(v))
  {
    var n := AssetName(v);
    assert n[..|ASSET_PREFIX|] == ASSET_PREFIX && n[|n| - |ASSET_SUFFIX|..] == ASSET_SUFFIX;
    assert !Marked(ASSET_PREFIX) && !Marked(ASSET_SUFFIX) && '/' !in ASSET_PREFIX && '/' !in ASSET_SUFFIX;
  }

  /** The URL of a version gives the version back. */
  lemma VersionOfDownloadURL(v: string)
    requires '/' !in v && !Marked(v)
    ensures Version(DownloadURL(v)) == v && Base(DownloadURL(v)) == AssetName(v)
  {
    AssetNameClean(v);
    BaseLast(RELEASE_BASE + "/v" + v, AssetName(v));
    assert DownloadURL(v) == (RELEASE_BASE + "/v" + v) + "/" + AssetName(v);
    BeforeMarkUnmarked(AssetName(v));
    AssetBounds(AssetName(v));
  }

  lemma AssetStarts(base: string)
    requires IsAsset(BeforeMark(base))
    ensures base !in {"", ".", "..", "/"} && base[0] == 'a'
  {
    BeforeMarkUnmarked(base);
    var name := BeforeMark(base);
    assert name[0] == name[..|ASSET_PREFIX|][0] == ASSET_PREFIX[0] == 'a';
    assert base[0] == base[..|name|][0] == name[0];
  }

  lemma SameUnder(root: string, a: string, b: string)
    ensures root + "/" + a == root + "/" + b <==> a == b
  {
    assert (root + "/" + a)[|root| + 1..] == a && (root + "/" + b)[|root| + 1..] == b;
  }

  /** The name of an asset gives its version, and the URL of the version the name. */
  lemma AssetRoundTrip(url: string)
    requires IsAsset(BeforeMark(Base(url))) && '/' !in Base(url)
    ensures var name := BeforeMark(Base(url)); Base(DownloadURL(Version(url))) == name && '/' !in name
  {
    var name := BeforeMark(Base(url));
    BeforeMarkUnmarked(Base(url));
    AssetBounds(name);
    assert forall c :: c in Version(url) ==> c in name;
    VersionOfDownloadURL(Version(url));
  }

  /** A rollback looks for a version's tarball exactly where the forward download of that
      version put it, if and only if the download URL's name carries no query or fragment. */
  lemma RollbackFindsDownloadIff(url: string)
    requires IsAsset(BeforeMark(Base(url)))
    ensures CachePath(DownloadURL(Version(url))) == CachePath(url) <==> !Marked(Base(url))
  {
    var base := Base(url);
    var name := BeforeMark(base);
    BeforeMarkUnmarked(base);
    AssetStarts(base);
    BaseClean(url);
    AssetRoundTrip(url);
    BeforeMarkUnmarked(name);
    AssetStarts(name);
    CachedUnder(url, base);
    CachedUnder(DownloadURL(Version(url)), name);
    SameUnder(AGENT_CACHE_ROOT, base, name);
  }

  lemma BaseClean(p: string)
    ensures Base(p) == "/" || '/' !in Base(p)
  {
    AfterSlashClean(TrimSlashes(p));
  }
}
