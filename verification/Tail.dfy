/** The last lines of a log, read once through a ring of fixed size. */
module Tail {
  const DEFAULT_LOG_LINES: nat := 200

  function Bound(n: int): (m: nat)
    ensures m > 0
  {
    if n <= 0 then DEFAULT_LOG_LINES else n
  }

  /** The last n lines, or all of them when there are fewer. */
  function LastLines(lines: seq<string>, n: nat): (out: seq<string>)
    ensures |out| <= n && |out| <= |lines| && (|out| == n || |out| == |lines|)
    ensures lines[|lines| - |out|..] == out
  {
    lines[if |lines| <= n then 0 else |lines| - n..]
  }

  /** The cell of the k-th line. */
  function Cell(k: nat, n: nat): (c: nat)
    requires n > 0
    ensures c < n
  {
    k % n
  }

  /** Two of n consecutive numbers never share a cell. */
  lemma CellsApart(k: nat, c: nat, n: nat)
    requires n > 0 && k < c < k + n
    ensures Cell(k, n) != Cell(c, n)
  {
    if k % n == c % n {
      var d := c / n - k / n;
      assert c - k == n * d;
      assert d <= 0 || d >= 1;
      if d >= 1 { Widen(n, d); } else { Widen(n, 1 - d); }
    }
  }

  lemma Widen(n: nat, d: int)
    requires d >= 1
    ensures n * d >= n && n * (1 - d) <= 0
  {}

  /** Cells wrap: moving a whole turn back changes nothing. */
  lemma CellWraps(c: nat, i: nat, n: nat)
    requires n > 0 && n <= c
    ensures Cell(Cell(c, n) + i, n) == Cell(c - n + i, n)
  {
    var q := c / n;
    assert c == n * q + c % n;
    assert c - n + i == n * (q - 1) + (c % n + i) by { assert n * (q - 1) == n * q - n; }
    Turns(c % n + i, q - 1, n);
  }

  lemma {:induction false} Turns(x: nat, q: nat, n: nat)
    requires n > 0
    ensures (n * q + x) % n == x % n
  {
    var a, b := (n * q + x) / n, x / n;
    var d := a - q - b;
    assert n * d == n * a - n * q - n * b;
    assert (n * q + x) % n - x % n == -(n * d);
    if d >= 1 { Widen(n, d); } else { Widen(n, 1 - d); }
  }

  /** After some lines, the ring holds each of the last |ring| of them in its own cell. */
  ghost predicate Holds(ring: seq<string>, lines: seq<string>) {
    |ring| > 0 &&
    forall k :: 0 <= k < |lines| <= k + |ring| ==> ring[Cell(k, |ring|)] == lines[k]
  }

  lemma HoldsNext(ring: seq<string>, lines: seq<string>, line: string)
    requires Holds(ring, lines)
    ensures Holds(ring[Cell(|lines|, |ring|) := line], lines + [line])
  {
    var n, c := |ring|, |lines|;
    var next := ring[Cell(c, n) := line];
    forall k | 0 <= k < c + 1 <= k + n ensures next[Cell(k, n)] == (lines + [line])[k] {
      if k < c { CellsApart(k, c, n); }
    }
  }

  function Start(count: nat, n: nat): nat
    requires n > 0
  {
    if count > n then Cell(count, n) else 0
  }

  lemma StartCell(count: nat, n: nat, i: nat)
    requires n > 0 && i < n && (count <= n ==> i < count)
    ensures Cell(Start(count, n) + i, n) == Cell(if count > n then count - n + i else i, n)
  {
    if count > n { CellWraps(count, i, n); }
  }

  /** Reading on from the start cell meets the last lines in order. */
  lemma HoldsLast(ring: seq<string>, lines: seq<string>, i: nat)
    requires Holds(ring, lines) && i < |LastLines(lines, |ring|)|
    ensures ring[Cell(Start(|lines|, |ring|) + i, |ring|)] == LastLines(lines, |ring|)[i]
  {
    StartCell(|lines|, |ring|, i);
    var k := if |lines| > |ring| then |lines| - |ring| + i else i;
    assert ring[Cell(k, |ring|)] == lines[k];
  }

  lemma PrefixNext(s: seq<string>, i: nat)
    requires i < |s|
    ensures s[..i] + [s[i]] == s[..i + 1]
  {}

  /** One scan of the input, whatever its length, into n cells. */
  method FillRing(lines: seq<string>, n: nat) returns (ring: array<string>)
    requires n > 0
    ensures fresh(ring) && ring.Length == n && Holds(ring[..], lines)
  {
    ring := new string[n](_ => "");
    for count := 0 to |lines|
      invariant Holds(ring[..], lines[..count])
    {
      ghost var was := ring[..];
      HoldsNext(was, lines[..count], lines[count]);
      assert lines[..count + 1] == lines[..count] + [lines[count]];
      ring[Cell(count, n)] := lines[count];
      assert ring[..] == was[Cell(count, n) := lines[count]];
    }
    assert lines[..|lines|] == lines;
  }

  /** writeTail. `scanFails`: a line too long, or a read error; `room`: how many lines the
      writer takes before it fails. */
  method WriteTail(lines: seq<string>, n: int, scanFails: bool, room: nat) returns (ok: bool, out: seq<string>)
    ensures var last := LastLines(lines, if n > 0 then n else 200);
      (ok <==> !scanFails && |last| <= room) && (ok ==> out == last) && (scanFails ==> out == []) && out <= last
  {
    var cells, count := Bound(n), |lines|;
    var ring := FillRing(lines, cells);
    if scanFails {
      return false, [];
    }
    var start, size := 0, count;
    if count > cells {
      start, size := Cell(count, cells), cells;
    }
    ok, out := Emit(ring[..], start, size, room, lines);
  }

  /** Write the ring out from its start cell. */
  method Emit(ring: seq<string>, start: nat, size: nat, room: nat, ghost lines: seq<string>)
    returns (ok: bool, out: seq<string>)
    requires Holds(ring, lines) && start == Start(|lines|, |ring|) && size == |LastLines(lines, |ring|)|
    ensures ok <==> size <= room
    ensures out == LastLines(lines, |ring|)[..if ok then size else room]
  {
    ghost var last := LastLines(lines, |ring|);
    out := [];
    for i := 0 to size
      invariant out == last[..i] && i <= room
    {
      if i == room {
        return false, out;
      }
      HoldsLast(ring, lines, i);
      PrefixNext(last, i);
      out := out + [ring[Cell(start + i, |ring|)]];
    }
    ok := true;
  }
}
