/** A runner's install directory and the primitives the upgrade uses on it. Names at the
    top of the directory map to the files below them, keyed by relative path; a plain
    file is the path []. */
module AgentTree {

  type Rel = seq<string>
  datatype File = File(data: string, owner: string)
  type Sub = map<Rel, File>
  type Tree = map<string, Sub>

  /** One regular file of the release archive. An entry that would land outside the
      directory is unsafe and stops the extraction. */
  datatype Entry = Entry(top: string, rel: Rel, data: string) | Unsafe

  const PAYLOAD: seq<string> := ["bin", "externals"]
  const SUFFIX := ".srm-prev"

  function Bak(sub: string): string {
    sub + SUFFIX
  }

  /** The payload directories and their snapshots are four different names. */
  lemma Names()
    ensures forall i, j :: 0 <= i < |PAYLOAD| && 0 <= j < |PAYLOAD| ==>
              PAYLOAD[i] != Bak(PAYLOAD[j]) &&
              (i != j ==> PAYLOAD[i] != PAYLOAD[j] && Bak(PAYLOAD[i]) != Bak(PAYLOAD[j]))
  {
    assert |Bak("bin")| == 12 && |Bak("externals")| == 18;
  }

  function Data(s: Sub): map<Rel, string> {
    map p | p in s :: s[p].data
  }

  /** Same presence and same file contents under a top-level name; owners may differ. */
  predicate Agree(t: Tree, a: string, u: Tree, b: string) {
    (a in t <==> b in u) && (a in t ==> Data(t[a]) == Data(u[b]))
  }

  ghost predicate SameData(t: Tree, u: Tree) {
    forall top: string :: Agree(t, top, u, top)
  }

  // ---------------------------------------------------------------- extraction

  function Put(t: Tree, e: Entry): Tree
    requires e.Entry?
  {
    var sub := if e.top in t then t[e.top] else map[];
    var owner := if e.rel in sub then sub[e.rel].owner else "root";
    t[e.top := sub[e.rel := File(e.data, owner)]]
  }

  predicate Safe(archive: seq<Entry>) {
    forall i :: 0 <= i < |archive| ==> archive[i].Entry?
  }

  function Unpack(t: Tree, archive: seq<Entry>): Tree
    requires Safe(archive)
    decreases |archive|
  {
    if archive == [] then t
    else Put(Unpack(t, archive[..|archive| - 1]), archive[|archive| - 1])
  }

  ghost predicate Touches(archive: seq<Entry>, top: string) {
    exists i :: 0 <= i < |archive| && archive[i].Entry? && archive[i].top == top
  }

  ghost predicate Writes(archive: seq<Entry>, top: string, rel: Rel) {
    exists i :: 0 <= i < |archive| && archive[i].Entry? && archive[i].top == top && archive[i].rel == rel
  }

  /** What an extraction, complete or cut short, leaves alone. */
  ghost predicate Spares(t: Tree, u: Tree, archive: seq<Entry>) {
    && (forall top :: top in t ==> top in u)
    && (forall top :: top in u && top !in t ==> Touches(archive, top))
    && (forall top, rel {:trigger Writes(archive, top, rel)} :: top in u && !Writes(archive, top, rel) ==>
          if top in t && rel in t[top] then rel in u[top] && u[top][rel] == t[top][rel] else rel !in u[top])
  }

  lemma SparesUntouched(t: Tree, u: Tree, archive: seq<Entry>, top: string)
    requires Spares(t, u, archive) && !Touches(archive, top)
    ensures (top in t <==> top in u) && (top in t ==> u[top] == t[top])
  {
    if top in t {
      forall rel ensures rel in t[top] <==> rel in u[top]
        ensures rel in t[top] ==> u[top][rel] == t[top][rel]
      {
        assert !Writes(archive, top, rel);
      }
    }
  }

  /** Extraction below a name depends only on what was below that name. */
  lemma {:induction false} UnpackAgrees(t: Tree, u: Tree, archive: seq<Entry>, top: string)
    requires Safe(archive) && Agree(t, top, u, top)
    ensures Agree(Unpack(t, archive), top, Unpack(u, archive), top)
    decreases |archive|
  {
    if archive == [] {
    } else {
      var front := archive[..|archive| - 1];
      UnpackAgrees(t, u, front, top);
      PutAgrees(Unpack(t, front), Unpack(u, front), archive[|archive| - 1], top);
    }
  }

  lemma PutAgrees(t: Tree, u: Tree, e: Entry, top: string)
    requires e.Entry? && Agree(t, top, u, top)
    ensures Agree(Put(t, e), top, Put(u, e), top)
  {
    if e.top == top {
      var a := if top in t then t[top] else map[];
      var b := if top in u then u[top] else map[];
      assert Data(a) == Data(b);
      assert Data(Put(t, e)[top]) == Data(a)[e.rel := e.data];
      assert Data(Put(u, e)[top]) == Data(b)[e.rel := e.data];
    }
  }

  // ---------------------------------------------------------------- what an archive holds

  /** The i-th entry is the last one to write this file. */
  ghost predicate LastWrite(archive: seq<Entry>, i: nat, top: string, rel: Rel) {
    && i < |archive| && archive[i].Entry? && archive[i].top == top && archive[i].rel == rel
    && !Writes(archive[i + 1..], top, rel)
  }

  /** Below a name, t with the archive extracted over it: the files there are those of t and
      those some entry writes; each of the latter has the contents of the last entry that does,
      the others are as they were. */
  ghost predicate Extracted(t: Tree, u: Tree, archive: seq<Entry>, top: string) {
    && (top in u <==> top in t || Touches(archive, top))
    && forall rel :: ExtractedFile(t, u, archive, top, rel)
  }

  ghost predicate ExtractedFile(t: Tree, u: Tree, archive: seq<Entry>, top: string, rel: Rel) {
    var before, now := top in t && rel in t[top], top in u && rel in u[top];
    && (now <==> before || Writes(archive, top, rel))
    && (before && !Writes(archive, top, rel) ==> u[top][rel] == t[top][rel])
    && (now && !before ==> u[top][rel].owner == "root") && (before ==> u[top][rel].owner == t[top][rel].owner)
    && forall i: nat :: LastWrite(archive, i, top, rel) ==> u[top][rel].data == archive[i].data
  }

  lemma WritesSplit(archive: seq<Entry>, n: nat, top: string, rel: Rel)
    requires n <= |archive|
    ensures Writes(archive, top, rel) <==> Writes(archive[..n], top, rel) || Writes(archive[n..], top, rel)
  {
    if Writes(archive, top, rel) {
      var i :| 0 <= i < |archive| && archive[i].Entry? && archive[i].top == top && archive[i].rel == rel;
      assert i < n ==> archive[..n][i] == archive[i];
      assert i >= n ==> archive[n..][i - n] == archive[i];
    }
    if Writes(archive[n..], top, rel) {
      var back := archive[n..];
      var i :| 0 <= i < |back| && back[i].Entry? && back[i].top == top && back[i].rel == rel;
      assert archive[n + i] == back[i];
    }
  }

  lemma WritesOne(e: Entry, top: string, rel: Rel)
    ensures Writes([e], top, rel) <==> e.Entry? && e.top == top && e.rel == rel
  {
    assert [e][0] == e;
  }

  /** The last writer of a file is the last entry if that writes it, else the one before. */
  lemma LastWriteNext(front: seq<Entry>, e: Entry, i: nat, top: string, rel: Rel)
    ensures var all := front + [e];
      LastWrite(all, i, top, rel) <==>
        if Writes([e], top, rel) then i == |front| else LastWrite(front, i, top, rel)
  {
    var all := front + [e];
    WritesOne(e, top, rel);
    if i < |front| {
      assert all[i + 1..] == front[i + 1..] + [e] && all[i] == front[i];
      assert all[i + 1..][..|front| - i - 1] == front[i + 1..] && all[i + 1..][|front| - i - 1..] == [e];
      WritesSplit(all[i + 1..], |front| - i - 1, top, rel);
    } else if i == |front| {
      assert all[i + 1..] == [];
    }
  }

  lemma ExtractedNext(t: Tree, mid: Tree, front: seq<Entry>, e: Entry, top: string, rel: Rel)
    requires e.Entry? && ExtractedFile(t, mid, front, top, rel)
    ensures ExtractedFile(t, Put(mid, e), front + [e], top, rel)
  {
    var all: seq<Entry>, u: Tree := front + [e], Put(mid, e);
    assert all[..|front|] == front && all[|front|..] == [e];
    WritesSplit(all, |front|, top, rel);
    WritesOne(e, top, rel);
    forall i: nat | LastWrite(all, i, top, rel) ensures u[top][rel].data == all[i].data {
      LastWriteNext(front, e, i, top, rel);
    }
  }

  lemma TouchesNext(front: seq<Entry>, e: Entry, top: string)
    ensures Touches(front + [e], top) <==> Touches(front, top) || (e.Entry? && e.top == top)
  {
    var all := front + [e];
    assert all[|front|] == e && forall i :: 0 <= i < |front| ==> all[i] == front[i];
    if Touches(front, top) {
      var i :| 0 <= i < |front| && front[i].Entry? && front[i].top == top;
      assert all[i].Entry? && all[i].top == top;
    }
  }

  /** What unpacking means, file by file. */
  lemma {:induction false} UnpackMeans(t: Tree, archive: seq<Entry>, top: string)
    requires Safe(archive)
    ensures Extracted(t, Unpack(t, archive), archive, top)
    decreases |archive|
  {
    if archive == [] {
    } else {
      var front, e := archive[..|archive| - 1], archive[|archive| - 1];
      assert archive == front + [e];
      UnpackMeans(t, front, top);
      var mid := Unpack(t, front);
      TouchesNext(front, e, top);
      forall rel ensures ExtractedFile(t, Put(mid, e), archive, top, rel) {
        assert ExtractedFile(t, mid, front, top, rel);
        ExtractedNext(t, mid, front, e, top, rel);
      }
    }
  }

  /** Below a name, u holds exactly the archive's files, each with the contents of the last
      entry for it. */
  ghost predicate HoldsArchive(archive: seq<Entry>, u: Tree, top: string) {
    && Safe(archive) && (top in u <==> Touches(archive, top))
    && (top in u ==> forall rel :: rel in Data(u[top]) <==> Writes(archive, top, rel))
    && forall i: nat, rel :: LastWrite(archive, i, top, rel) && top in u && rel in Data(u[top]) ==>
         Data(u[top])[rel] == archive[i].data
  }

  lemma UnpackHolds(archive: seq<Entry>, top: string)
    requires Safe(archive)
    ensures HoldsArchive(archive, Unpack(map[], archive), top)
  {
    var u := Unpack(map[], archive);
    UnpackMeans(map[], archive, top);
    forall rel | top in u ensures rel in Data(u[top]) <==> Writes(archive, top, rel) {
      assert ExtractedFile(map[], u, archive, top, rel);
    }
    forall i: nat, rel | LastWrite(archive, i, top, rel) && top in u && rel in Data(u[top])
      ensures Data(u[top])[rel] == archive[i].data
    {
      assert ExtractedFile(map[], u, archive, top, rel);
    }
  }

  lemma HoldsAgree(archive: seq<Entry>, t: Tree, u: Tree, top: string)
    requires HoldsArchive(archive, t, top) && Agree(t, top, u, top)
    ensures HoldsArchive(archive, u, top)
  {}

  // ---------------------------------------------------------------- recovery

  /** recoverAgentSnapshot for one payload directory, its own calls working. */
  function RecoverOne(t: Tree, sub: string): Tree {
    if Bak(sub) !in t then t
    else if sub !in t then t[sub := t[Bak(sub)]] - {Bak(sub)}
    else t - {Bak(sub)}
  }

  function Recovered(t: Tree): Tree {
    RecoverOne(RecoverOne(t, PAYLOAD[0]), PAYLOAD[1])
  }

  ghost predicate NoSnapshot(t: Tree) {
    forall i :: 0 <= i < |PAYLOAD| ==> Bak(PAYLOAD[i]) !in t
  }

  /** Recovery, exactly: no snapshot is left; a payload directory that is missing comes
      back from its snapshot, and one that is present keeps what it has, whatever the
      snapshot held. */
  lemma RecoverExactly(t: Tree, i: nat)
    requires i < |PAYLOAD|
    ensures NoSnapshot(Recovered(t))
    ensures var sub, u := PAYLOAD[i], Recovered(t);
      && (sub in u <==> sub in t || Bak(sub) in t)
      && (sub in u ==> u[sub] == if sub in t then t[sub] else t[Bak(sub)])
    ensures forall top :: (forall j :: 0 <= j < |PAYLOAD| ==> top != PAYLOAD[j] && top != Bak(PAYLOAD[j])) ==>
              (top in t <==> top in Recovered(t)) && (top in t ==> Recovered(t)[top] == t[top])
  {
    Names();
  }
}
