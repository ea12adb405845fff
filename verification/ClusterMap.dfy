/** The cluster link map: a table of the fragments of a file, and the lookup in it. */
module ClusterMap {
  import opened Bytes
  import opened Layout
  import opened FileData

  // Number of clusters in the fragment that a list starts with.
  function RunLength(ch: seq<nat>): (n: nat)
    requires |ch| > 0
    ensures 0 < n <= |ch|
  {
    if |ch| > 1 && ch[1] == ch[0] + 1 then 1 + RunLength(ch[1..]) else 1
  }

  /** The fragments of a list, each as its length and its first cluster. */
  function Runs(ch: seq<nat>): (r: seq<nat>)
    ensures |r| % 2 == 0 && (ch != [] ==> |r| >= 2)
    decreases |ch|
  {
    if ch == [] then [] else [RunLength(ch), ch[0]] + Runs(ch[RunLength(ch)..])
  }

  lemma {:induction false} RunAt(ch: seq<nat>, i: nat)
    requires |ch| > 0 && i < RunLength(ch)
    ensures ch[i] == ch[0] + i
  {
    if i > 0 {
      RunAt(ch[1..], i - 1);
    }
  }

  /** clmt_clust's walk over the table, as a function: cluster number cl of the file. */
  function Lookup(t: seq<nat>, cl: nat): nat
    decreases |t|
  {
    if |t| < 2 || t[0] == 0 then 0
    else if cl < t[0] then cl + t[1]
    else Lookup(t[2..], cl - t[0])
  }

  /** The map agrees with the list it was made from, and gives 0 behind its end. */
  lemma {:induction false} LookupRuns(ch: seq<nat>, cl: nat)
    ensures Lookup(Runs(ch) + [0], cl) == if cl < |ch| then ch[cl] else 0
    decreases |ch|
  {
    if ch != [] {
      var n := RunLength(ch);
      var t := Runs(ch) + [0];
      assert t[2..] == Runs(ch[n..]) + [0];
      if cl < n {
        RunAt(ch, cl);
      } else {
        LookupRuns(ch[n..], cl - n);
      }
    }
  }

  // What the entries of a table say about the walk from one of its fragments on.
  lemma LookupStep(t: seq<nat>, k: nat, cl: nat)
    requires k + 1 < |t|
    ensures Lookup(t[k..], cl) == if t[k] == 0 then 0 else if cl < t[k] then cl + t[k + 1] else Lookup(t[k + 2..], cl - t[k])
  {
    assert t[k..][2..] == t[k + 2..];
  }

  lemma LookupEnd(t: seq<nat>, cl: nat)
    requires |t| > 0
    ensures Lookup(t[|t| - 1..], cl) == 0
  {
  }

  // The same numbers, as table entries and as naturals.
  ghost predicate Matches(a: seq<dword>, b: seq<nat>) {
    |a| == |b| && forall i :: 0 <= i < |a| ==> a[i] as int == b[i]
  }

  /** The table holds the map of a list of clusters. */
  ghost predicate MapOf(cltbl: array<dword>, ch: seq<nat>)
    reads cltbl
  {
    var r := Runs(ch);
    cltbl.Length >= |r| + 2 && Matches(cltbl[1..|r| + 2], r + [0])
  }

  /** clmt_clust */
  method ClmtClust(g: Geometry, cltbl: array<dword>, ofs: nat, ghost ch: seq<nat>) returns (r: nat)
    requires g.csize > 0 && MapOf(cltbl, ch)
    ensures var cl := ClusterIndex(g, ofs) % 0x1_0000_0000; r == if cl < |ch| then ch[cl] else 0
  {
    hide Lookup;
    var i: nat, cl: nat := 1, ClusterIndex(g, ofs) % 0x1_0000_0000;
    ghost var t, want := Runs(ch) + [0], Lookup(Runs(ch) + [0], cl);
    LookupRuns(ch, cl);
    assert t[0..] == t;
    ghost var m, n := 0, |Runs(ch)| / 2;
    assert |t| == 2 * n + 1;
    hide Runs, ClusterIndex;
    assert forall k :: 0 <= k < |t| ==> cltbl[1..|t| + 1][k] as int == t[k];
    while true
      invariant i == 2 * m + 1 && 0 <= m <= n && Lookup(t[i - 1..], cl) == want
      decreases n - m
    {
      var ncl := cltbl[i];
      assert ncl as int == t[i - 1];
      if i < |t| {
        LookupStep(t, i - 1, cl);
      } else {
        LookupEnd(t, cl);
      }
      i := i + 1;
      if ncl == 0 {
        return 0;
      }
      if cl < ncl {
        break;
      }
      cl := cl - ncl;
      i := i + 1;
      m := m + 1;
    }
    assert cltbl[i] as int == t[i - 1];
    return cl + cltbl[i];
  }
}
