/** sort.Slice: an arrangement of the same elements in which none comes before an earlier one. */
module Sorting {

  /** What a comparison must satisfy, as sort.Slice asks: a strict weak order. */
  ghost predicate WeakOrder<T(!new)>(less: (T, T) -> bool) {
    (forall a, b :: less(a, b) ==> !less(b, a)) &&
    (forall a, b, c :: !less(b, a) && !less(c, b) ==> !less(c, a))
  }

  ghost predicate Sorted<T>(s: seq<T>, less: (T, T) -> bool) {
    forall i, j :: 0 <= i < j < |s| ==> !less(s[j], s[i])
  }

  lemma Inserted<T>(s: seq<T>, x: T, k: nat)
    requires k <= |s|
    ensures multiset(s[..k] + [x] + s[k..]) == multiset(s) + multiset{x}
  {
    assert s == s[..k] + s[k..];
  }

  lemma InsertedSorted<T(!new)>(s: seq<T>, x: T, k: nat, less: (T, T) -> bool)
    requires k <= |s| && Sorted(s, less) && WeakOrder(less)
    requires forall j :: k <= j < |s| ==> less(x, s[j])
    requires k > 0 ==> !less(x, s[k - 1])
    ensures Sorted(s[..k] + [x] + s[k..], less)
  {
    var out := s[..k] + [x] + s[k..];
    forall i | 0 <= i < |out| ensures out[i] == if i < k then s[i] else if i == k then x else s[i - 1] {}
    forall j | 0 <= j < k ensures !less(x, s[j]) {
      if j < k - 1 { assert !less(s[k - 1], s[j]); }
    }
  }

  method Insert<T(!new)>(s: seq<T>, x: T, less: (T, T) -> bool) returns (out: seq<T>)
    requires Sorted(s, less) && WeakOrder(less)
    ensures multiset(out) == multiset(s) + multiset{x} && Sorted(out, less)
  {
    var k := |s|;
    while k > 0 && less(x, s[k - 1])
      invariant 0 <= k <= |s| && forall j :: k <= j < |s| ==> less(x, s[j])
    {
      k := k - 1;
    }
    Inserted(s, x, k);
    InsertedSorted(s, x, k, less);
    out := s[..k] + [x] + s[k..];
  }

  method Sort<T(!new)>(s: seq<T>, less: (T, T) -> bool) returns (out: seq<T>)
    requires WeakOrder(less)
    ensures multiset(out) == multiset(s) && Sorted(out, less)
  {
    out := [];
    for i := 0 to |s|
      invariant multiset(out) == multiset(s[..i]) && Sorted(out, less)
    {
      assert s[..i + 1] == s[..i] + [s[i]];
      out := Insert(out, s[i], less);
    }
    assert s[..|s|] == s;
  }

  // ---------------------------------------------------------------- no element twice

  ghost predicate Once<T>(s: seq<T>) {
    forall i, j :: 0 <= i < j < |s| ==> s[i] != s[j]
  }

  lemma {:induction false} OnceCounts<T>(s: seq<T>)
    ensures Once(s) <==> forall x :: x in s ==> multiset(s)[x] == 1
  {
    if s == [] {
    } else {
      var rest := s[1..];
      OnceCounts(rest);
      assert s == [s[0]] + rest;
      assert multiset(s) == multiset{s[0]} + multiset(rest);
      if Once(s) {
        assert Once(rest) && s[0] !in rest;
      } else {
        TwiceCounts(s);
      }
    }
  }

  lemma TwiceCounts<T>(s: seq<T>)
    requires !Once(s)
    ensures exists x :: x in s && multiset(s)[x] > 1
  {
    var i, j :| 0 <= i < j < |s| && s[i] == s[j];
    assert s == s[..j] + s[j..] && s[i] in multiset(s[..j]) && s[j] == s[j..][0] && s[j] in multiset(s[j..]);
    assert multiset(s) == multiset(s[..j]) + multiset(s[j..]);
    assert s[j] in s && multiset(s)[s[j]] > 1;
  }

  /** An arrangement has the same elements, and none twice if there was none before. */
  lemma Rearranged<T>(a: seq<T>, b: seq<T>)
    requires multiset(a) == multiset(b)
    ensures |a| == |b| && (forall x :: x in a <==> x in b) && (Once(a) ==> Once(b))
  {
    assert |a| == |multiset(a)| && |b| == |multiset(b)|;
    forall x ensures x in a <==> x in b {
      assert x in a <==> x in multiset(a);
      assert x in b <==> x in multiset(b);
    }
    OnceCounts(a);
    OnceCounts(b);
  }

  /** Where each element of one arrangement stands in the other: every place taken once. */
  ghost predicate Places<T>(a: seq<T>, b: seq<T>, at: seq<nat>) {
    && |at| == |a| == |b| && Once(at)
    && (forall i :: 0 <= i < |at| ==> at[i] < |b| && b[at[i]] == a[i])
    && (forall j :: 0 <= j < |b| ==> j in at)
  }

  /** Putting an element back in at place j moves the later ones up. */
  function Shift(i: nat, j: nat): nat {
    if i < j then i else i + 1
  }

  lemma PlacesBack<T>(x: T, a: seq<T>, b: seq<T>, at: seq<nat>, j: nat)
    requires Places(a, b, at) && j <= |b|
    ensures Places([x] + a, b[..j] + [x] + b[j..], [j] + seq(|at|, i requires 0 <= i < |at| => Shift(at[i], j)))
  {
    var more := b[..j] + [x] + b[j..];
    var all := [j] + seq(|at|, i requires 0 <= i < |at| => Shift(at[i], j));
    forall i | 0 <= i < |all| ensures all[i] < |more| && more[all[i]] == ([x] + a)[i] {
      if i > 0 { assert all[i] == Shift(at[i - 1], j) && b[at[i - 1]] == a[i - 1]; }
    }
    forall p, q | 0 <= p < q < |all| ensures all[p] != all[q] {
      if p > 0 { assert at[p - 1] != at[q - 1]; }
    }
    forall k | 0 <= k < |more| ensures k in all {
      if k != j {
        var before: nat := if k < j then k else k - 1;
        assert before < |b| && before in at;
        var i :| 0 <= i < |at| && at[i] == before;
        assert all[i + 1] == Shift(before, j) == k;
      } else {
        assert all[0] == k;
      }
    }
  }

  lemma Removed<T>(s: seq<T>, j: nat)
    requires j < |s|
    ensures multiset(s[..j] + s[j + 1..]) == multiset(s) - multiset{s[j]}
  {
    assert s == s[..j] + [s[j]] + s[j + 1..];
  }

  lemma DropAt<T>(s: seq<T>, j: nat) returns (rest: seq<T>)
    requires j < |s|
    ensures rest == s[..j] + s[j + 1..] && j <= |rest| && rest[..j] + [s[j]] + rest[j..] == s
  {
    rest := s[..j] + s[j + 1..];
    assert rest[..j] == s[..j] && rest[j..] == s[j + 1..];
  }

  lemma TakeFirst<T>(a: seq<T>, b: seq<T>) returns (j: nat, rest: seq<T>)
    requires a != [] && multiset(a) == multiset(b)
    ensures j <= |rest| && rest[..j] + [a[0]] + rest[j..] == b && multiset(a[1..]) == multiset(rest)
  {
    Rearranged(a, b);
    assert a[0] in b;
    j :| 0 <= j < |b| && b[j] == a[0];
    rest := DropAt(b, j);
    Removed(b, j);
    RemovedFirst(a);
  }

  lemma RemovedFirst<T>(a: seq<T>)
    requires a != []
    ensures multiset(a[1..]) == multiset(a) - multiset{a[0]}
  {
    assert a == [a[0]] + a[1..];
  }

  lemma {:induction false} Placement<T>(a: seq<T>, b: seq<T>) returns (at: seq<nat>)
    requires multiset(a) == multiset(b)
    ensures Places(a, b, at)
  {
    if a == [] {
      Rearranged(a, b);
      at := [];
    } else {
      var j, rest := TakeFirst(a, b);
      var less := Placement(a[1..], rest);
      PlacesBack(a[0], a[1..], rest, less, j);
      assert [a[0]] + a[1..] == a;
      at := [j] + seq(|less|, i requires 0 <= i < |less| => Shift(less[i], j));
    }
  }

  // ---------------------------------------------------------------- string order

  /** Go's order on strings. */
  function Before(a: string, b: string): bool {
    if b == "" then false
    else if a == "" then true
    else if a[0] != b[0] then a[0] < b[0]
    else Before(a[1..], b[1..])
  }

  lemma {:induction false} BeforeTotal(a: string, b: string)
    ensures !(Before(a, b) && Before(b, a)) && (!Before(a, b) && !Before(b, a) ==> a == b)
  {
    if a == "" || b == "" {
    } else {
      BeforeTotal(a[1..], b[1..]);
      assert a == [a[0]] + a[1..] && b == [b[0]] + b[1..];
    }
  }

  lemma {:induction false} BeforeTransitive(a: string, b: string, c: string)
    requires Before(a, b) && Before(b, c)
    ensures Before(a, c)
  {
    if a == "" || !(a[0] == b[0] == c[0]) {
    } else {
      BeforeTransitive(a[1..], b[1..], c[1..]);
    }
  }

  /** Pairs by their first component, then by the second. */
  /** a comes first: it is the start of b, or smaller where they first differ. */
  ghost predicate ComesFirst(a: string, b: string, i: nat) {
    i <= |a| && i < |b| && a[..i] == b[..i] && (i == |a| || a[i] < b[i])
  }

  lemma {:induction false} BeforeIff(a: string, b: string)
    ensures Before(a, b) <==> exists i: nat :: ComesFirst(a, b, i)
  {
    if a == "" || b == "" {
      if b != "" { assert ComesFirst(a, b, 0); }
    } else if a[0] != b[0] {
      if a[0] < b[0] { assert ComesFirst(a, b, 0); }
      forall i: nat | ComesFirst(a, b, i) ensures a[0] < b[0] {
        if i > 0 { assert a[..i][0] == b[..i][0]; }
      }
    } else {
      var x, y := a[1..], b[1..];
      BeforeIff(x, y);
      if Before(x, y) {
        var i: nat :| ComesFirst(x, y, i);
        assert a[..i + 1] == [a[0]] + x[..i] && b[..i + 1] == [b[0]] + y[..i];
        assert ComesFirst(a, b, i + 1);
      }
      forall i: nat | ComesFirst(a, b, i) ensures Before(x, y) {
        assert i > 0;
        assert x[..i - 1] == a[..i][1..] && y[..i - 1] == b[..i][1..];
        assert ComesFirst(x, y, i - 1);
      }
    }
  }

  function PairBefore(a: (string, string), b: (string, string)): bool {
    if a.0 != b.0 then Before(a.0, b.0) else Before(a.1, b.1)
  }

  lemma PairBeforeTransitive(a: (string, string), b: (string, string), c: (string, string))
    requires !PairBefore(b, a) && !PairBefore(c, b)
    ensures !PairBefore(c, a)
  {
    BeforeTotal(a.0, b.0);
    BeforeTotal(b.0, c.0);
    BeforeTotal(a.0, c.0);
    BeforeTotal(a.1, b.1);
    BeforeTotal(b.1, c.1);
    BeforeTotal(a.1, c.1);
    if Before(a.0, b.0) && Before(b.0, c.0) { BeforeTransitive(a.0, b.0, c.0); }
    if Before(a.1, b.1) && Before(b.1, c.1) { BeforeTransitive(a.1, b.1, c.1); }
  }
}
