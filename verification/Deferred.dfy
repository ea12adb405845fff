/** exFAT objects whose FAT links are written late: how appending a cluster and
    writing out the first and the last fragment change what the state denotes. */
module Deferred {
  import opened Arith
  import opened Bytes
  import opened Layout
  import opened Chains

  /** The links after writing out a last fragment of n clusters that ends at lcl. */
  function PendingWritten(f: seq<dword>, lcl: nat, n: nat, term: dword): (r: seq<dword>)
    requires |f| < 0x1_0000_0000
    ensures |r| == |f|
  {
    seq(|f|, c requires 0 <= c < |f| => if lcl - n < c < lcl then c + 1 else if c == lcl && n > 0 then term else f[c])
  }

  /** The links after writing out a first fragment of n + 1 clusters from scl on. */
  function FirstWritten(f: seq<dword>, scl: nat, n: nat): (r: seq<dword>)
    requires |f| < 0x1_0000_0000
    ensures |r| == |f|
  {
    seq(|f|, c requires 0 <= c < |f| => if scl <= c < scl + n then c + 1 else f[c])
  }

  lemma {:induction false} ConsecutiveBack(ch: seq<nat>, lo: nat, i: nat)
    requires lo <= i < |ch| && Consecutive(ch, lo, |ch| - 1)
    ensures ch[|ch| - 1] == ch[i] + (|ch| - 1 - i)
    decreases |ch| - i
  {
    if i < |ch| - 1 {
      ConsecutiveBack(ch, lo, i + 1);
    }
  }

  // The pending entries are those of the last n clusters of the list.
  lemma PendingIndex(g: Geometry, ch: seq<nat>, n: nat, i: nat)
    requires ClusterList(g, ch) && 0 < n <= |ch| && Consecutive(ch, |ch| - n, |ch| - 1) && i < |ch|
    ensures ch[|ch| - 1] - n < ch[i] <= ch[|ch| - 1] <==> |ch| - n <= i
    ensures |ch| - n <= i ==> ch[|ch| - 1] == ch[i] + (|ch| - 1 - i)
  {
    var last := |ch| - 1;
    if |ch| - n <= i {
      ConsecutiveBack(ch, |ch| - n, i);
    } else if ch[last] - n < ch[i] <= ch[last] {
      ConsecutiveBack(ch, |ch| - n, last - (ch[last] - ch[i]));
    }
  }

  // Every link of the list from index lo on is on the FAT once the last n are written.
  lemma PendingOnFat(g: Geometry, f: seq<dword>, ch: seq<nat>, lo: nat, n: nat, c: dword)
    requires g.Ok() && |f| == g.nFatent && ClusterList(g, ch) && 0 < n <= |ch|
    requires OnFat(f, ch, lo, |ch| - n) && Consecutive(ch, |ch| - n, |ch| - 1)
    ensures var f' := PendingWritten(f, ch[|ch| - 1], n, c);
            OnFat(f', ch, lo, |ch| - 1) && f'[ch[|ch| - 1]] == c
  {
    var f' := PendingWritten(f, ch[|ch| - 1], n, c);
    forall i | lo <= i < |ch| - 1 ensures f'[ch[i]] == ch[i + 1] {
      PendingIndex(g, ch, n, i);
    }
  }

  /** Writing out the last fragment with an end mark. */
  lemma FlushLast(g: Geometry, f: seq<dword>, a: Alloc, ch: seq<nat>, eoc: dword)
    requires g.Ok() && g.fsType == EXFAT && Denotes(g, f, a, ch) && eoc >= g.nFatent
    ensures Denotes(g, PendingWritten(f, ch[|ch| - 1], a.nFrag, eoc), a.(nFrag := 0), ch)
  {
    if a.nFrag == 0 {
      assert PendingWritten(f, ch[|ch| - 1], 0, eoc) == f;
    } else {
      PendingOnFat(g, f, ch, LinkedFrom(a), a.nFrag, eoc);
    }
  }

  /** Writing out the first fragment makes a just fragmented object a chained one. */
  lemma FlushFirst(g: Geometry, f: seq<dword>, a: Alloc, ch: seq<nat>)
    requires g.Ok() && g.fsType == EXFAT && Denotes(g, f, a, ch) && a.stat == 3 && a.sclust == ch[0]
    ensures Denotes(g, FirstWritten(f, a.sclust, a.nCont), a.(stat := 0), ch)
  {
    var f' := FirstWritten(f, a.sclust, a.nCont);
    forall i | 0 <= i < |ch| ensures f'[ch[i]] == if i < a.nCont then ch[i] + 1 else f[ch[i]] {
      FirstIndex(g, ch, a.nCont, i);
    }
    forall i | 0 <= i < LinkedTo(a, ch) ensures f'[ch[i]] == ch[i + 1] {
      if i >= a.nCont {
        assert f[ch[i]] == ch[i + 1];
      }
    }
  }

  lemma FirstIndex(g: Geometry, ch: seq<nat>, n: nat, i: nat)
    requires ClusterList(g, ch) && n < |ch| && Consecutive(ch, 0, n) && i < |ch|
    ensures ch[0] <= ch[i] < ch[0] + n <==> i < n
  {
    if i <= n {
      ConsecutiveAt(ch, n, i);
    } else if ch[0] <= ch[i] < ch[0] + n {
      ConsecutiveAt(ch, n, ch[i] - ch[0]);
    }
  }

  /** With both fragments written out, the FAT spells the list. */
  lemma FlushedIsSpelled(g: Geometry, f: seq<dword>, a: Alloc, ch: seq<nat>)
    requires g.Ok() && g.fsType == EXFAT && Denotes(g, f, a, ch) && a.stat == 0 && a.nFrag == 0
    ensures Spelled(g, f, ch)
  {
    assert OnFat(f, ch, 0, |ch| - 1);
  }

  /** What create_chain makes of the allocation state when it appends cluster c. */
  function Appended(a: Alloc, last: nat, c: nat): Alloc {
    if a.stat == 2 && c == last + 1 then a
    else if a.stat == 2 then a.(stat := 3, nCont := (last as int - a.sclust as int) % 0x1_0000_0000, nFrag := 1)
    else if c == last + 1 then a.(nFrag := if a.nFrag > 0 then (a.nFrag + 1) % 0x1_0000_0000 else 2)
    else a.(nFrag := 1)
  }

  /** The links that create_chain writes when it appends cluster c. */
  function AppendedLinks(f: seq<dword>, a: Alloc, last: nat, c: dword): (r: seq<dword>)
    requires |f| < 0x1_0000_0000
    ensures |r| == |f|
  {
    if c == last + 1 then f else PendingWritten(f, last, if a.nFrag > 0 then a.nFrag else 1, c)
  }

  lemma ClusterListGrown(g: Geometry, ch: seq<nat>, c: nat)
    requires ClusterList(g, ch) && g.IsCluster(c) && c !in ch
    ensures ClusterList(g, ch + [c])
  {
  }

  // Statements about the links of a list survive appending to it.
  lemma LinksGrown(f: seq<dword>, ch: seq<nat>, c: nat, lo: nat, hi: int)
    requires hi < |ch|
    ensures Consecutive(ch, lo, hi) ==> Consecutive(ch + [c], lo, hi)
    ensures OnFat(f, ch, lo, hi) ==> OnFat(f, ch + [c], lo, hi)
    ensures Consecutive(ch, lo, |ch| - 1) && |ch| > 0 && c == ch[|ch| - 1] + 1 ==> Consecutive(ch + [c], lo, |ch|)
    ensures OnFat(f, ch, lo, |ch| - 1) && |ch| > 0 && ch[|ch| - 1] < |f| && f[ch[|ch| - 1]] == c ==> OnFat(f, ch + [c], lo, |ch|)
  {
  }

  /** Appending a cluster that does not follow on: the old end is linked to it on the FAT. */
  lemma AppendFragment(g: Geometry, f: seq<dword>, a: Alloc, ch: seq<nat>, c: dword)
    requires g.Ok() && g.fsType == EXFAT && Denotes(g, f, a, ch) && a.sclust == ch[0]
    requires g.IsCluster(c) && c !in ch && c != ch[|ch| - 1] + 1
    ensures Denotes(g, AppendedLinks(f, a, ch[|ch| - 1], c), Appended(a, ch[|ch| - 1], c), ch + [c])
  {
    if a.stat == 2 {
      BreakContiguous(g, f, a, ch, c);
    } else {
      BreakChained(g, f, a, ch, c);
    }
  }

  lemma BreakContiguous(g: Geometry, f: seq<dword>, a: Alloc, ch: seq<nat>, c: dword)
    requires g.Ok() && g.fsType == EXFAT && Denotes(g, f, a, ch) && a.sclust == ch[0] && a.stat == 2
    requires g.IsCluster(c) && c !in ch && c != ch[|ch| - 1] + 1
    ensures Denotes(g, AppendedLinks(f, a, ch[|ch| - 1], c), Appended(a, ch[|ch| - 1], c), ch + [c])
  {
    hide OnFat, Consecutive, PendingWritten, ClusterList;
    ListNonEmpty(g, f, a, ch);
    ClusterListGrown(g, ch, c);
    var f' := PendingWritten(f, ch[|ch| - 1], 1, c);
    ShortRun(ch, |ch| - 1);
    ShortRun(ch + [c], |ch|);
    ContiguousEnd(g, ch);
    SmallMod(|ch| - 1, 0x1_0000_0000);
    NothingOnFat(f, ch, |ch| - 1);
    PendingOnFat(g, f, ch, |ch| - 1, 1, c);
    LinksGrown(f', ch, c, |ch| - 1, 0);
    LinksGrown(f', ch, c, 0, |ch| - 1);
  }

  lemma ContiguousEnd(g: Geometry, ch: seq<nat>)
    requires g.Ok() && ClusterList(g, ch) && Consecutive(ch, 0, |ch| - 1)
    ensures ch[|ch| - 1] == ch[0] + (|ch| - 1) && |ch| < 0x8000_0000
  {
    ConsecutiveAt(ch, |ch| - 1, |ch| - 1);
  }

  lemma BreakChained(g: Geometry, f: seq<dword>, a: Alloc, ch: seq<nat>, c: dword)
    requires g.Ok() && g.fsType == EXFAT && Denotes(g, f, a, ch) && a.stat != 2
    requires g.IsCluster(c) && c !in ch && c != ch[|ch| - 1] + 1
    ensures Denotes(g, AppendedLinks(f, a, ch[|ch| - 1], c), Appended(a, ch[|ch| - 1], c), ch + [c])
  {
    hide OnFat, Consecutive, PendingWritten, ClusterList, Geometry.Ok;
    ListNonEmpty(g, f, a, ch);
    ClusterListGrown(g, ch, c);
    var n := if a.nFrag > 0 then a.nFrag else 1;
    var f' := PendingWritten(f, ch[|ch| - 1], n, c);
    ShortRun(ch, |ch| - 1);
    ShortRun(ch + [c], |ch|);
    PendingOnFat(g, f, ch, LinkedFrom(a), n, c);
    LinksGrown(f', ch, c, LinkedFrom(a), 0);
    LinksGrown(f', ch, c, 0, LinkedFrom(a));
    assert ClusterList(g, ch + [c]);
  }

  lemma ListNonEmpty(g: Geometry, f: seq<dword>, a: Alloc, ch: seq<nat>)
    requires g.Ok() && Denotes(g, f, a, ch)
    ensures ClusterList(g, ch) && |ch| > 0 && ch[|ch| - 1] < g.nFatent == |f| < 0x8000_0000
  {
  }

  lemma ShortRun(ch: seq<nat>, lo: nat)
    requires |ch| <= lo + 1
    ensures Consecutive(ch, lo, |ch| - 1)
  {
  }

  lemma NothingOnFat(f: seq<dword>, ch: seq<nat>, lo: nat)
    requires |ch| <= lo + 1
    ensures OnFat(f, ch, lo, |ch| - 1)
  {
  }

  /** Appending the cluster that follows on: nothing is written. */
  lemma AppendNext(g: Geometry, f: seq<dword>, a: Alloc, ch: seq<nat>, c: dword)
    requires g.Ok() && g.fsType == EXFAT && Denotes(g, f, a, ch)
    requires g.IsCluster(c) && c !in ch && c == ch[|ch| - 1] + 1 && |ch| < 0xFFFF_FFFF
    ensures Denotes(g, f, Appended(a, ch[|ch| - 1], c), ch + [c])
  {
    hide OnFat, Consecutive, ClusterList;
    assert ClusterList(g, ch) && |ch| > 0 by { ListNonEmpty(g, f, a, ch); }
    ClusterListGrown(g, ch, c);
    if a.stat == 2 {
      LinksGrown(f, ch, c, 0, 0);
    } else {
      ShortRun(ch, |ch| - 1);
      var lo := if a.nFrag > 0 then |ch| - a.nFrag else |ch| - 1;
      LinksGrown(f, ch, c, LinkedFrom(a), LinkedTo(a, ch));
      LinksGrown(f, ch, c, lo, |ch| - 1);
      if a.stat == 3 {
        LinksGrown(f, ch, c, 0, a.nCont);
      }
    }
  }

  // The pending entries are valid clusters of the list itself.
  lemma PendingInside(g: Geometry, f: seq<dword>, a: Alloc, ch: seq<nat>)
    requires g.Ok() && g.fsType == EXFAT && Denotes(g, f, a, ch)
    ensures a.nFrag < ch[|ch| - 1]
    ensures forall c: nat :: ch[|ch| - 1] - a.nFrag < c <= ch[|ch| - 1] ==> c in ch
    ensures ch[|ch| - 1] in ch
  {
    var last := |ch| - 1;
    if a.nFrag > 0 {
      ConsecutiveBack(ch, |ch| - a.nFrag, |ch| - a.nFrag);
      forall c: nat | ch[last] - a.nFrag < c <= ch[last] ensures c in ch {
        ConsecutiveBack(ch, |ch| - a.nFrag, last - (ch[last] - c));
      }
    }
  }

  /** Appending a cluster to the list an exFAT object denotes. */
  lemma AppendedDenotes(g: Geometry, f: seq<dword>, a: Alloc, ch: seq<nat>, c: dword)
    requires g.Ok() && g.fsType == EXFAT && Denotes(g, f, a, ch) && a.sclust == ch[0]
    requires g.IsCluster(c) && c !in ch && |ch| < 0xFFFF_FFFF
    ensures Denotes(g, AppendedLinks(f, a, ch[|ch| - 1], c), Appended(a, ch[|ch| - 1], c), ch + [c])
  {
    if c == ch[|ch| - 1] + 1 {
      AppendNext(g, f, a, ch, c);
    } else {
      AppendFragment(g, f, a, ch, c);
    }
  }

  ghost function Below(n: nat): (s: set<nat>)
    ensures |s| == n && forall c: nat :: c in s <==> c < n
  {
    if n == 0 then {} else Below(n - 1) + {n - 1}
  }

  // A list has fewer clusters than the FAT has entries.
  lemma ListFits(g: Geometry, ch: seq<nat>)
    requires g.Ok() && ClusterList(g, ch)
    ensures |ch| < g.nFatent
  {
    ListSize(ch, |ch|, Below(g.nFatent) - {0});
  }

  lemma {:induction false} ListSize(ch: seq<nat>, n: nat, s: set<nat>)
    requires n <= |ch| && (forall i, j :: 0 <= i < j < n ==> ch[i] != ch[j]) && (forall i :: 0 <= i < n ==> ch[i] in s)
    ensures n <= |s|
  {
    if n > 0 {
      ListSize(ch, n - 1, s - {ch[n - 1]});
    }
  }
}
