/** Strings the way the Go standard library sees them: splitting and joining on one
    separator, white-space trimming, and decimal integers of 64 bits. */
module Text {

  const MAX_INT: int := 0x7fff_ffff_ffff_ffff
  const MIN_INT: int := -MAX_INT - 1

  predicate HasPrefix(s: string, p: string) {
    |p| <= |s| && s[..|p|] == p
  }

  predicate HasSuffix(s: string, p: string) {
    |p| <= |s| && s[|s| - |p|..] == p
  }

  function TrimPrefix(s: string, p: string): string {
    if HasPrefix(s, p) then s[|p|..] else s
  }

  function TrimSuffix(s: string, p: string): string {
    if HasSuffix(s, p) then s[..|s| - |p|] else s
  }

  // ---------------------------------------------------------------- split and join

  /** strings.Split for a one-character separator: never empty. */
  function Split(s: string, sep: char): (parts: seq<string>)
    ensures |parts| >= 1
  {
    if s == "" then [""]
    else
      var rest := Split(s[1..], sep);
      if s[0] == sep then [""] + rest else [[s[0]] + rest[0]] + rest[1..]
  }

  function Join(parts: seq<string>, sep: char): string {
    if |parts| == 0 then ""
    else if |parts| == 1 then parts[0]
    else parts[0] + [sep] + Join(parts[1..], sep)
  }

  ghost predicate Free(parts: seq<string>, sep: char) {
    forall i :: 0 <= i < |parts| ==> sep !in parts[i]
  }

  lemma {:induction false} SplitFree(s: string, sep: char)
    ensures Free(Split(s, sep), sep)
  {
    if s == "" {
    } else {
      SplitFree(s[1..], sep);
    }
  }

  lemma {:induction false} SplitOne(s: string, sep: char)
    requires sep !in s
    ensures Split(s, sep) == [s]
  {
    if s == "" {
    } else {
      SplitOne(s[1..], sep);
      assert [s[0]] + s[1..] == s;
    }
  }

  /** What one more leading character does to a split. */
  function Grow(c: char, parts: seq<string>, sep: char): seq<string>
    requires parts != []
  {
    if c == sep then [""] + parts else [[c] + parts[0]] + parts[1..]
  }

  lemma GrowAppend(c: char, x: seq<string>, y: seq<string>, sep: char)
    requires x != []
    ensures Grow(c, x + y, sep) == Grow(c, x, sep) + y
  {
    assert (x + y)[1..] == x[1..] + y;
  }

  lemma SplitGrow(c: char, s: string, sep: char)
    ensures Split([c] + s, sep) == Grow(c, Split(s, sep), sep)
  {
    assert ([c] + s)[1..] == s;
  }

  lemma {:induction false} SplitAppend(a: string, b: string, sep: char)
    ensures Split(a + [sep] + b, sep) == Split(a, sep) + Split(b, sep)
  {
    if a == "" {
      assert a + [sep] + b == [sep] + b;
      SplitGrow(sep, b, sep);
    } else {
      var rest := a[1..];
      SplitAppend(rest, b, sep);
      SplitGrow(a[0], rest + [sep] + b, sep);
      SplitGrow(a[0], rest, sep);
      GrowAppend(a[0], Split(rest, sep), Split(b, sep), sep);
      assert a == [a[0]] + rest;
      assert a + [sep] + b == [a[0]] + (rest + [sep] + b);
    }
  }

  lemma {:induction false} SplitJoin(parts: seq<string>, sep: char)
    requires parts != [] && Free(parts, sep)
    ensures Split(Join(parts, sep), sep) == parts
  {
    SplitOne(parts[0], sep);
    if |parts| == 1 {
    } else {
      SplitJoin(parts[1..], sep);
      SplitAppend(parts[0], Join(parts[1..], sep), sep);
      assert [parts[0]] + parts[1..] == parts;
    }
  }

  /** A part with a separator in it joins like two parts. */
  lemma {:induction false} JoinBreak(a: seq<string>, x: string, y: string, b: seq<string>, sep: char)
    ensures Join(a + [x + [sep] + y] + b, sep) == Join(a + [x, y] + b, sep)
  {
    if a == [] {
      JoinBreakFirst(x, y, b, sep);
      assert a + [x, y] + b == [x, y] + b && a + [x + [sep] + y] + b == [x + [sep] + y] + b;
    } else {
      var p, q := a[1..] + [x + [sep] + y] + b, a[1..] + [x, y] + b;
      JoinBreak(a[1..], x, y, b, sep);
      JoinAlike(a[0], p, q, sep);
      assert [a[0]] + q == a + [x, y] + b && [a[0]] + p == a + [x + [sep] + y] + b;
    }
  }

  lemma JoinBreakFirst(x: string, y: string, b: seq<string>, sep: char)
    ensures Join([x + [sep] + y] + b, sep) == Join([x, y] + b, sep)
  {
    JoinCons(y, b, sep);
    JoinCons(x, [y] + b, sep);
    JoinCons(x + [sep] + y, b, sep);
    assert [x] + ([y] + b) == [x, y] + b;
    if b != [] {
      assert x + [sep] + (y + [sep] + Join(b, sep)) == x + [sep] + y + [sep] + Join(b, sep);
    }
  }

  lemma JoinAlike(x: string, p: seq<string>, q: seq<string>, sep: char)
    requires p != [] && q != [] && Join(p, sep) == Join(q, sep)
    ensures Join([x] + p, sep) == Join([x] + q, sep)
  {
    JoinCons(x, p, sep);
    JoinCons(x, q, sep);
  }

  lemma JoinCons(x: string, parts: seq<string>, sep: char)
    ensures Join([x] + parts, sep) == if parts == [] then x else x + [sep] + Join(parts, sep)
  {
    assert ([x] + parts)[1..] == parts;
  }

  lemma {:induction false} JoinSplit(s: string, sep: char)
    ensures Join(Split(s, sep), sep) == s
  {
    if s == "" {
    } else {
      JoinSplit(s[1..], sep);
      var rest := Split(s[1..], sep);
      if s[0] == sep {
        assert ([""] + rest)[1..] == rest;
      } else {
        assert ([[s[0]] + rest[0]] + rest[1..])[1..] == rest[1..];
      }
      assert s == [s[0]] + s[1..];
    }
  }

  // ---------------------------------------------------------------- trimming

  /** unicode.IsSpace. */
  predicate IsSpace(c: char) {
    c == ' ' || '\t' <= c <= '\r' || c == '\U{85}' || c == '\U{A0}' || c == '\U{1680}' ||
    '\U{2000}' <= c <= '\U{200A}' || c == '\U{2028}' || c == '\U{2029}' || c == '\U{202F}' ||
    c == '\U{205F}' || c == '\U{3000}'
  }

  function TrimLeft(s: string): string {
    if s != "" && IsSpace(s[0]) then TrimLeft(s[1..]) else s
  }

  function TrimRight(s: string): string {
    if s != "" && IsSpace(s[|s| - 1]) then TrimRight(s[..|s| - 1]) else s
  }

  function TrimSpace(s: string): string {
    TrimRight(TrimLeft(s))
  }

  lemma TrimSpaceNothing(s: string)
    requires s != "" && !IsSpace(s[0]) && !IsSpace(s[|s| - 1])
    ensures TrimSpace(s) == s
  {}

  // ---------------------------------------------------------------- decimal integers

  /** What strconv.Atoi gives back: on a range error the value is clamped, and callers
      that drop the error see the clamped value. */
  datatype Number = Good(value: int) | BadSyntax | OutOfRange(clamped: int) {
    function Lenient(): int {
      match this
      case Good(v) => v
      case BadSyntax => 0
      case OutOfRange(v) => v
    }
  }

  predicate AllDigits(s: string) {
    forall i :: 0 <= i < |s| ==> '0' <= s[i] <= '9'
  }

  function Value(s: string): nat
    requires AllDigits(s)
  {
    if s == "" then 0 else 10 * Value(s[..|s| - 1]) + (s[|s| - 1] - '0') as int
  }

  function Atoi(s: string): Number {
    var signed := s != "" && (s[0] == '-' || s[0] == '+');
    var body := if signed then s[1..] else s;
    if body == "" || !AllDigits(body) then BadSyntax
    else
      var v: int := Value(body);
      var v: int := if signed && s[0] == '-' then -v else v;
      if v > MAX_INT then OutOfRange(MAX_INT)
      else if v < MIN_INT then OutOfRange(MIN_INT)
      else Good(v)
  }

  function Itoa(n: nat): (s: string)
    ensures s != "" && AllDigits(s)
  {
    var last := ['0' + (n % 10) as char];
    if n < 10 then last else Itoa(n / 10) + last
  }

  lemma {:induction false} ValueItoa(n: nat)
    ensures Value(Itoa(n)) == n
  {
    if n < 10 {
    } else {
      ValueItoa(n / 10);
      assert Itoa(n)[..|Itoa(n)| - 1] == Itoa(n / 10);
    }
  }

  /** Printing a number and reading it back is the identity on the numbers an int holds. */
  lemma AtoiItoa(n: nat)
    requires n <= MAX_INT
    ensures Atoi(Itoa(n)) == Good(n)
  {
    ValueItoa(n);
    assert '0' <= Itoa(n)[0] <= '9';
  }

  /** An integer as %d prints it. */
  function Decimal(n: int): string {
    if n < 0 then "-" + Itoa(-n) else Itoa(n)
  }

  /** Reading digits, with a minus or without. */
  lemma AtoiDigits(body: string, v: int)
    requires body != "" && AllDigits(body) && Value(body) == v
    ensures Atoi(body) == if v > MAX_INT then OutOfRange(MAX_INT) else Good(v)
    ensures Atoi("-" + body) == if -v < MIN_INT then OutOfRange(MIN_INT) else Good(-v)
    ensures Atoi("+" + body) == Atoi(body)
  {
    assert '0' <= body[0] <= '9';
    assert ("-" + body)[1..] == body && ("+" + body)[1..] == body;
  }

  /** The same for every integer: the ones an int does not hold are clamped, and reported. */
  lemma AtoiDecimal(n: int)
    ensures Atoi(Decimal(n)) ==
            if n > MAX_INT then OutOfRange(MAX_INT) else if n < MIN_INT then OutOfRange(MIN_INT) else Good(n)
  {
    var m: nat := if n < 0 then -n else n;
    ValueItoa(m);
    AtoiDigits(Itoa(m), m);
  }

  /** It is digits, after a sign exactly when the integer is negative. */
  lemma DecimalDigits(n: int)
    ensures Decimal(n) != "" && forall c :: c in Decimal(n) ==> c == '-' || '0' <= c <= '9'
    ensures '-' in Decimal(n) <==> n < 0
  {
    var m: nat := if n < 0 then -n else n;
    forall c | c in Decimal(n) ensures c == '-' || '0' <= c <= '9' {
      if c in Itoa(m) { var i :| 0 <= i < |Itoa(m)| && Itoa(m)[i] == c; }
    }
  }

  lemma ItoaInjective(a: nat, b: nat)
    requires Itoa(a) == Itoa(b)
    ensures a == b
  {
    ValueItoa(a);
    ValueItoa(b);
  }

  // ---------------------------------------------------------------- collecting

  /** What f finds in each element, in order. */
  function Collect<T, U>(s: seq<T>, f: T -> seq<U>): seq<U> {
    if s == [] then [] else f(s[0]) + Collect(s[1..], f)
  }

  lemma {:induction false} CollectAppend<T, U>(a: seq<T>, b: seq<T>, f: T -> seq<U>)
    ensures Collect(a + b, f) == Collect(a, f) + Collect(b, f)
  {
    if a == [] {
      assert a + b == b;
    } else {
      assert (a + b)[1..] == a[1..] + b;
      CollectAppend(a[1..], b, f);
    }
  }

  lemma CollectNext<T, U>(s: seq<T>, i: nat, f: T -> seq<U>)
    requires i < |s|
    ensures Collect(s[..i + 1], f) == Collect(s[..i], f) + f(s[i])
  {
    assert s[..i + 1] == s[..i] + [s[i]];
    CollectAppend(s[..i], [s[i]], f);
    CollectOne(s[i], f);
  }

  lemma {:induction false} CollectAlike<T, U>(s: seq<T>, f: T -> seq<U>, g: T -> seq<U>)
    requires forall i :: 0 <= i < |s| ==> f(s[i]) == g(s[i])
    ensures Collect(s, f) == Collect(s, g)
  {
    if s == [] {
    } else {
      assert forall i :: 0 <= i < |s[1..]| ==> s[1..][i] == s[i + 1];
      CollectAlike(s[1..], f, g);
    }
  }

  lemma CollectOne<T, U>(x: T, f: T -> seq<U>)
    ensures Collect([x], f) == f(x)
  {
    assert [x][1..] == [];
  }

  lemma {:induction false} CollectMember<T, U>(s: seq<T>, f: T -> seq<U>, y: U)
    ensures y in Collect(s, f) <==> exists i :: 0 <= i < |s| && y in f(s[i])
  {
    if s == [] {
    } else {
      CollectMember(s[1..], f, y);
      if y in Collect(s[1..], f) {
        var i :| 0 <= i < |s[1..]| && y in f(s[1..][i]);
        assert y in f(s[i + 1]);
      }
      forall i | 0 <= i < |s| && y in f(s[i]) ensures y in Collect(s, f) {
        if i > 0 { assert y in f(s[1..][i - 1]); }
      }
    }
  }

  // ---------------------------------------------------------------- filtering

  function Kept<T>(keep: T -> bool): T -> seq<T> {
    (x: T) => if keep(x) then [x] else []
  }

  function Filter<T>(s: seq<T>, keep: T -> bool): seq<T> {
    Collect(s, Kept(keep))
  }

  lemma FilterCons<T>(x: T, s: seq<T>, keep: T -> bool)
    ensures Filter([x] + s, keep) == (if keep(x) then [x] else []) + Filter(s, keep)
  {
    assert ([x] + s)[1..] == s;
  }

  lemma FilterAppend<T>(a: seq<T>, b: seq<T>, keep: T -> bool)
    ensures Filter(a + b, keep) == Filter(a, keep) + Filter(b, keep)
  {
    CollectAppend(a, b, Kept(keep));
  }

  lemma FilterNext<T>(s: seq<T>, i: nat, keep: T -> bool)
    requires i < |s|
    ensures Filter(s[..i + 1], keep) == if keep(s[i]) then Filter(s[..i], keep) + [s[i]] else Filter(s[..i], keep)
  {
    CollectNext(s, i, Kept(keep));
  }

  /** An element that is not kept makes no difference, wherever it stands. */
  lemma FilterDrops<T>(a: seq<T>, x: T, b: seq<T>, keep: T -> bool)
    requires !keep(x)
    ensures Filter(a + [x] + b, keep) == Filter(a + b, keep)
  {
    assert a + [x] + b == a + ([x] + b);
    FilterAppend(a, [x] + b, keep);
    FilterCons(x, b, keep);
    FilterAppend(a, b, keep);
  }

  lemma {:induction false} FilterSound<T>(s: seq<T>, keep: T -> bool)
    ensures forall x :: x in Filter(s, keep) <==> x in s && keep(x)
  {
    if s == [] {
    } else {
      FilterSound(s[1..], keep);
      assert s == [s[0]] + s[1..];
    }
  }

  lemma {:induction false} FilterAll<T>(s: seq<T>, keep: T -> bool)
    requires forall x :: x in s ==> keep(x)
    ensures Filter(s, keep) == s
  {
    if s == [] {
    } else {
      FilterAll(s[1..], keep);
    }
  }

  /** Go's filtering in place: out := s[:0], then append, over the same backing array. */
  method Compact<T>(a: array<T>, n: nat, keep: T -> bool) returns (kept: nat)
    requires n <= a.Length
    modifies a
    ensures kept <= n
    ensures a[..kept] == Filter(old(a[..n]), keep)
    ensures a[n..] == old(a[n..])
  {
    ghost var was := a[..n];
    kept := 0;
    for i := 0 to n
      invariant kept <= i
      invariant a[..kept] == Filter(was[..i], keep)
      invariant forall j :: i <= j < n ==> a[j] == was[j]
      invariant forall j :: n <= j < a.Length ==> a[j] == old(a[j])
    {
      FilterNext(was, i, keep);
      if keep(a[i]) {
        a[kept] := a[i];
        kept := kept + 1;
      }
    }
    assert was[..n] == was;
  }
}
