/** Cluster chains: the lists of clusters that the FAT, the bitmap and the
    allocation state of exFAT objects stand for. */
module Chains {
  import opened Bytes
  import opened Layout

  const EOC_EXFAT: dword := 0x7FFF_FFFF

  /** Allocation state of an object: stat is 0 (chained on the FAT), 2 (contiguous,
      no chain) or 3 (just fragmented); nCont and nFrag size the first and the
      last fragment whose links are not on the FAT yet. Only exFAT uses them. */
  datatype Alloc = Alloc(stat: nat, sclust: dword, nCont: dword, nFrag: dword, objsize: nat)

  type ClusterLists = map<nat, seq<nat>>

  /** Distinct valid clusters. */
  ghost predicate ClusterList(g: Geometry, ch: seq<nat>) {
    && |ch| > 0
    && (forall i :: 0 <= i < |ch| ==> g.IsCluster(ch[i]))
    && (forall i, j :: 0 <= i < j < |ch| ==> ch[i] != ch[j])
  }

  /** Disjoint lists, each filed under its first cluster. */
  ghost predicate Disjoint(g: Geometry, chains: ClusterLists) {
    && (forall k :: k in chains ==> ClusterList(g, chains[k]) && chains[k][0] == k)
    && (forall k, l, c :: k in chains && l in chains && c in chains[k] && c in chains[l] ==> k == l)
  }

  ghost predicate Owned(chains: ClusterLists, c: nat) {
    exists k :: k in chains && c in chains[k]
  }

  ghost function FreeClusters(g: Geometry, chains: ClusterLists): set<nat> {
    set c: nat | c < g.nFatent && 2 <= c && !Owned(chains, c)
  }

  /** The links of the FAT spell exactly this list. */
  ghost predicate Spelled(g: Geometry, f: seq<dword>, ch: seq<nat>) {
    && |f| == g.nFatent && ClusterList(g, ch)
    && (forall i :: 0 <= i < |ch| - 1 ==> f[ch[i]] == ch[i + 1])
    && f[ch[|ch| - 1]] >= g.nFatent
  }

  /** The FAT is the union of the lists: it spells each of them, and every
      cluster outside them is marked free. */
  ghost predicate FatAgrees(g: Geometry, f: seq<dword>, chains: ClusterLists) {
    && |f| == g.nFatent
    && (forall k :: k in chains ==> Spelled(g, f, chains[k]))
    && (forall c :: g.IsCluster(c) ==> (f[c] == 0 <==> !Owned(chains, c)))
  }

  ghost predicate BitsAgree(g: Geometry, bits: seq<bool>, chains: ClusterLists)
    requires |bits| == g.nFatent - 2
  {
    forall c: nat :: g.IsCluster(c) ==> (bits[c - 2] <==> Owned(chains, c))
  }

  /** A known free count is the number of free clusters. */
  ghost predicate CountOk(g: Geometry, chains: ClusterLists, freeClst: dword) {
    freeClst <= g.nFatent - 2 ==> freeClst == |FreeClusters(g, chains)|
  }

  /** c becomes the last cluster of list k, or the only one of a new list. */
  function Grown(chains: ClusterLists, k: nat, c: nat): ClusterLists {
    if k in chains then chains[k := chains[k] + [c]] else chains[k := [c]]
  }

  /** List k loses its clusters from index i on. */
  function Cut(chains: ClusterLists, k: nat, i: nat): ClusterLists
    requires k in chains && i <= |chains[k]|
  {
    if i == 0 then chains - {k} else chains[k := chains[k][..i]]
  }

  lemma GrownDisjoint(g: Geometry, chains: ClusterLists, k: nat, c: nat)
    requires Disjoint(g, chains) && g.IsCluster(c) && !Owned(chains, c) && (k in chains || k == c)
    ensures Disjoint(g, Grown(chains, k, c))
    ensures forall x :: Owned(Grown(chains, k, c), x) <==> Owned(chains, x) || x == c
  {
    var after := Grown(chains, k, c);
    forall x ensures Owned(after, x) <==> Owned(chains, x) || x == c {
      if Owned(chains, x) {
        var l :| l in chains && x in chains[l];
        assert x in after[l];
      }
      assert c in after[k];
    }
  }

  lemma GrownCount(g: Geometry, chains: ClusterLists, k: nat, c: nat)
    requires Disjoint(g, chains) && g.IsCluster(c) && !Owned(chains, c) && (k in chains || k == c)
    ensures |FreeClusters(g, Grown(chains, k, c))| == |FreeClusters(g, chains)| - 1
  {
    GrownDisjoint(g, chains, k, c);
    assert FreeClusters(g, chains) == FreeClusters(g, Grown(chains, k, c)) + {c};
  }

  // A list keeps its spelling when the links of its clusters stay.
  lemma StillSpelled(g: Geometry, f: seq<dword>, f': seq<dword>, ch: seq<nat>)
    requires Spelled(g, f, ch) && |f'| == |f| && forall c :: c in ch ==> c < |f| && f'[c] == f[c]
    ensures Spelled(g, f', ch)
  {
    assert forall i :: 0 <= i < |ch| ==> ch[i] in ch;
  }

  lemma SpelledGrown(g: Geometry, f: seq<dword>, f': seq<dword>, ch: seq<nat>, c: nat)
    requires Spelled(g, f, ch) && |f'| == |f| && g.IsCluster(c) && c !in ch
    requires f'[c] >= g.nFatent && f'[ch[|ch| - 1]] == c
    requires forall i :: 0 <= i < |ch| - 1 ==> f'[ch[i]] == f[ch[i]]
    ensures Spelled(g, f', ch + [c])
  {
  }

  // f' is f with c marked as an end and linked behind list k, if that exists.
  ghost predicate LinkedIn(g: Geometry, f: seq<dword>, f': seq<dword>, chains: ClusterLists, k: nat, c: nat) {
    && |f'| == |f| == g.nFatent && g.IsCluster(c) && f'[c] >= g.nFatent
    && (k in chains ==> ClusterList(g, chains[k]))
    && (k in chains ==> f'[chains[k][|chains[k]| - 1]] == c)
    && forall d :: 0 <= d < |f| && d != c && (k in chains ==> d != chains[k][|chains[k]| - 1]) ==> f'[d] == f[d]
  }

  lemma GrownListSpelled(g: Geometry, f: seq<dword>, f': seq<dword>, chains: ClusterLists, k: nat, c: nat, l: nat)
    requires Disjoint(g, chains) && FatAgrees(g, f, chains) && LinkedIn(g, f, f', chains, k, c)
    requires !Owned(chains, c) && (k in chains || k == c) && l in Grown(chains, k, c)
    ensures Spelled(g, f', Grown(chains, k, c)[l])
  {
    hide Owned;
    assert l in chains ==> c !in chains[l] by { NotOwned(chains, c, l); }
    if l != k {
      assert k in chains ==> chains[k][|chains[k]| - 1] in chains[k];
      StillSpelled(g, f, f', chains[l]);
    } else if k in chains {
      SpelledGrown(g, f, f', chains[k], c);
    }
  }

  lemma NotOwned(chains: ClusterLists, c: nat, k: nat)
    requires !Owned(chains, c)
    ensures k in chains ==> c !in chains[k]
  {
  }

  lemma GrownFatFree(g: Geometry, f: seq<dword>, f': seq<dword>, chains: ClusterLists, k: nat, c: nat)
    requires Disjoint(g, chains) && FatAgrees(g, f, chains) && LinkedIn(g, f, f', chains, k, c)
    requires !Owned(chains, c) && (k in chains || k == c)
    ensures forall d :: g.IsCluster(d) ==> (f'[d] == 0 <==> !Owned(Grown(chains, k, c), d))
  {
    hide Spelled;
    GrownDisjoint(g, chains, k, c);
    if k in chains {
      assert chains[k][|chains[k]| - 1] in chains[k];
    }
  }

  /** Linking a free cluster behind the end of a list, or on its own, grows the union. */
  lemma GrownFat(g: Geometry, f: seq<dword>, f': seq<dword>, chains: ClusterLists, k: nat, c: nat)
    requires Disjoint(g, chains) && FatAgrees(g, f, chains) && LinkedIn(g, f, f', chains, k, c)
    requires !Owned(chains, c) && (k in chains || k == c)
    ensures Disjoint(g, Grown(chains, k, c)) && FatAgrees(g, f', Grown(chains, k, c))
  {
    hide Spelled, Owned;
    GrownDisjoint(g, chains, k, c);
    forall l | l in Grown(chains, k, c) ensures Spelled(g, f', Grown(chains, k, c)[l]) {
      GrownListSpelled(g, f, f', chains, k, c, l);
    }
    GrownFatFree(g, f, f', chains, k, c);
  }

  /** What get_fat answers for cluster clst of an object when the drive works. */
  ghost function FatValue(g: Geometry, f: seq<dword>, a: Alloc, clst: dword): (r: dword)
    requires g.Ok() && |f| == g.nFatent && forall c :: 0 <= c < |f| ==> f[c] < 0x8000_0000
    ensures r < 0x8000_0000
  {
    if !g.IsCluster(clst) then BAD
    else if g.fsType != EXFAT then f[clst]
    else if (a.objsize == 0 || a.sclust == 0) && a.stat != 0 then BAD
    else if a.stat == 2 && FromStart(a, clst) <= LastIndex(g, a.objsize) then
      (if FromStart(a, clst) == LastIndex(g, a.objsize) then EOC_EXFAT else clst + 1)
    else if a.stat == 3 && FromStart(a, clst) < a.nCont then clst + 1
    else if a.stat == 2 then BAD
    else if a.nFrag != 0 then EOC_EXFAT
    else f[clst]
  }

  // Distance from the start cluster, in 32-bit arithmetic.
  function FromStart(a: Alloc, clst: dword): dword {
    (clst as int - a.sclust as int) % 0x1_0000_0000
  }

  // Number of clusters less one that an object of the given size takes.
  function LastIndex(g: Geometry, size: nat): dword
    requires g.csize > 0 && size > 0
  {
    (size - 1) / SECTOR_SIZE / g.csize % 0x1_0000_0000
  }

  // Clusters lo..hi of the list follow each other on the volume.
  ghost predicate Consecutive(ch: seq<nat>, lo: int, hi: int) {
    forall i :: 0 <= lo <= i < hi < |ch| ==> ch[i + 1] == ch[i] + 1
  }

  // The links of clusters lo..hi-1 of the list are on the FAT.
  ghost predicate OnFat(f: seq<dword>, ch: seq<nat>, lo: int, hi: int) {
    forall i :: 0 <= lo <= i < hi < |ch| && ch[i] < |f| ==> f[ch[i]] == ch[i + 1]
  }

  // First cluster of the list whose link is on the FAT.
  function LinkedFrom(a: Alloc): nat {
    if a.stat == 3 then a.nCont else 0
  }

  // First cluster of the list from whose link on the FAT has not been written.
  function LinkedTo(a: Alloc, ch: seq<nat>): int {
    if a.nFrag > 0 then |ch| - a.nFrag else |ch| - 1
  }

  /** The cluster list that the allocation state of an object and the FAT denote. On
      exFAT, the links of a contiguous object are not on the FAT at all; those of the
      first nCont clusters and of the last nFrag clusters may be still to be written. */
  ghost predicate Denotes(g: Geometry, f: seq<dword>, a: Alloc, ch: seq<nat>) {
    if g.fsType != EXFAT then Spelled(g, f, ch)
    else
      && |f| == g.nFatent && ClusterList(g, ch) && a.nFrag <= |ch|
      && match a.stat
         case 2 => a.nFrag == 0 && Consecutive(ch, 0, |ch| - 1)
         case 3 => a.nCont + 2 <= |ch| && Consecutive(ch, 0, a.nCont) && a.nCont < LinkedTo(a, ch) && Chained(g, f, a, ch)
         case 0 => Chained(g, f, a, ch)
         case _ => false
  }

  ghost predicate Chained(g: Geometry, f: seq<dword>, a: Alloc, ch: seq<nat>)
    requires |ch| > 0 && |f| == g.nFatent && ClusterList(g, ch)
  {
    && OnFat(f, ch, LinkedFrom(a), LinkedTo(a, ch))
    && Consecutive(ch, LinkedTo(a, ch), |ch| - 1)
    && (a.nFrag == 0 ==> f[ch[|ch| - 1]] >= g.nFatent)
  }

  /** The object is in a state in which get_fat can tell the successor of cluster i of
      its list: its size is right, and while a last fragment is pending only its end and
      the clusters of the first fragment can be asked for. */
  ghost predicate Answers(g: Geometry, a: Alloc, ch: seq<nat>, i: nat)
    requires g.csize > 0
  {
    g.fsType == EXFAT ==>
      && a.objsize > 0 && |ch| > 0 && a.sclust == ch[0]
      && (a.stat == 2 ==> (a.objsize - 1) / SECTOR_SIZE / g.csize == |ch| - 1)
      && (a.nFrag == 0 || i == |ch| - 1 || (a.stat == 3 && i < a.nCont))
  }

  lemma {:induction false} ConsecutiveAt(ch: seq<nat>, hi: int, i: nat)
    requires Consecutive(ch, 0, hi) && i <= hi < |ch|
    ensures ch[i] == ch[0] + i
  {
    if i > 0 {
      ConsecutiveAt(ch, hi, i - 1);
      assert ch[i - 1 + 1] == ch[i - 1] + 1;
    }
  }

  /** get_fat walks the list that the object denotes. */
  lemma NextInList(g: Geometry, f: seq<dword>, a: Alloc, ch: seq<nat>, i: nat)
    requires g.Ok() && |f| == g.nFatent && forall c :: 0 <= c < |f| ==> f[c] < 0x8000_0000
    requires Denotes(g, f, a, ch) && Answers(g, a, ch, i) && i < |ch|
    ensures i + 1 < |ch| ==> FatValue(g, f, a, ch[i]) == ch[i + 1]
    ensures i + 1 == |ch| ==> FatValue(g, f, a, ch[i]) >= g.nFatent
  {
    if g.fsType == EXFAT {
      if a.stat == 2 {
        NextContiguous(g, f, a, ch, i);
      } else {
        NextChained(g, f, a, ch, i);
      }
    }
  }

  /** Only in such a state: for an exFAT object of the right size, get_fat answers with the next cluster
      of the list if and only if no last fragment is pending, or the cluster is in the first fragment
      and not its last. */
  lemma NextExactly(g: Geometry, f: seq<dword>, a: Alloc, ch: seq<nat>, i: nat)
    requires g.Ok() && g.fsType == EXFAT && |f| == g.nFatent && forall c :: 0 <= c < |f| ==> f[c] < 0x8000_0000
    requires Denotes(g, f, a, ch) && a.objsize > 0 && a.sclust == ch[0] && i + 1 < |ch|
    requires a.stat == 2 ==> (a.objsize - 1) / SECTOR_SIZE / g.csize == |ch| - 1
    ensures FatValue(g, f, a, ch[i]) == ch[i + 1] <==> a.nFrag == 0 || (a.stat == 3 && i < a.nCont)
  {
    if a.nFrag == 0 || (a.stat == 3 && i < a.nCont) {
      NextInList(g, f, a, ch, i);
    } else {
      if a.stat == 3 {
        FirstFragment(g, a, ch, i);
      }
      hide FromStart, LastIndex;
      assert FatValue(g, f, a, ch[i]) == EOC_EXFAT;
      assert g.IsCluster(ch[i + 1]);
    }
  }

  lemma NextContiguous(g: Geometry, f: seq<dword>, a: Alloc, ch: seq<nat>, i: nat)
    requires g.Ok() && g.fsType == EXFAT && |f| == g.nFatent && forall c :: 0 <= c < |f| ==> f[c] < 0x8000_0000
    requires Denotes(g, f, a, ch) && Answers(g, a, ch, i) && i < |ch| && a.stat == 2
    ensures FatValue(g, f, a, ch[i]) == if i + 1 < |ch| then ch[i + 1] else EOC_EXFAT
  {
    hide LastIndex, FromStart;
    ConsecutiveAt(ch, |ch| - 1, i);
    ConsecutiveAt(ch, |ch| - 1, |ch| - 1);
    StartDistance(a, ch[i], i);
    LastIndexIs(g, a.objsize, |ch| - 1);
  }

  lemma StartDistance(a: Alloc, clst: dword, i: nat)
    requires clst as int == a.sclust as int + i
    ensures FromStart(a, clst) == i
  {
  }

  lemma LastIndexIs(g: Geometry, size: nat, i: nat)
    requires g.csize > 0 && size > 0 && (size - 1) / SECTOR_SIZE / g.csize == i < 0x1_0000_0000
    ensures LastIndex(g, size) == i
  {
  }

  lemma NextChained(g: Geometry, f: seq<dword>, a: Alloc, ch: seq<nat>, i: nat)
    requires g.Ok() && g.fsType == EXFAT && |f| == g.nFatent && forall c :: 0 <= c < |f| ==> f[c] < 0x8000_0000
    requires Denotes(g, f, a, ch) && Answers(g, a, ch, i) && i < |ch| && a.stat != 2
    ensures i + 1 < |ch| ==> FatValue(g, f, a, ch[i]) == ch[i + 1]
    ensures i + 1 == |ch| ==> FatValue(g, f, a, ch[i]) >= g.nFatent
  {
    if a.stat == 3 {
      FirstFragment(g, a, ch, i);
    }
    hide FromStart, LastIndex;
    assert OnFat(f, ch, LinkedFrom(a), LinkedTo(a, ch));
    if i < LinkedTo(a, ch) && LinkedFrom(a) <= i {
      assert f[ch[i]] == ch[i + 1];
    }
  }

  // Distances below nCont belong to the first nCont clusters only.
  lemma FirstFragment(g: Geometry, a: Alloc, ch: seq<nat>, i: nat)
    requires g.Ok() && ClusterList(g, ch) && a.stat == 3 && a.sclust == ch[0] && i < |ch|
    requires a.nCont < |ch| && Consecutive(ch, 0, a.nCont)
    ensures FromStart(a, ch[i]) < a.nCont <==> i < a.nCont
    ensures i < a.nCont ==> ch[i + 1] == ch[i] + 1
  {
    ConsecutiveAt(ch, a.nCont, a.nCont);
    if i <= a.nCont {
      ConsecutiveAt(ch, a.nCont, i);
    } else if FromStart(a, ch[i]) < a.nCont {
      ConsecutiveAt(ch, a.nCont, FromStart(a, ch[i]));
    }
  }

  // No link of a union of lists reads as an internal error.
  lemma NoBadLink(g: Geometry, f: seq<dword>, chains: ClusterLists, c: nat)
    requires g.Ok() && Disjoint(g, chains) && FatAgrees(g, f, chains) && g.IsCluster(c)
    ensures f[c] != BAD
  {
    if f[c] != 0 {
      var k :| k in chains && c in chains[k];
      LinkInList(g, f, chains[k], c);
    }
  }

  lemma LinkInList(g: Geometry, f: seq<dword>, ch: seq<nat>, c: nat)
    requires Spelled(g, f, ch) && c in ch
    ensures c < |f| && (f[c] in ch || f[c] >= g.nFatent) && f[c] >= 2
  {
    var i :| 0 <= i < |ch| && ch[i] == c;
    assert i < |ch| - 1 ==> f[ch[i]] == ch[i + 1];
    assert g.IsCluster(ch[0]);
  }

  lemma GrownBits(g: Geometry, bits: seq<bool>, chains: ClusterLists, k: nat, c: nat)
    requires Disjoint(g, chains) && |bits| == g.nFatent - 2 && BitsAgree(g, bits, chains)
    requires g.IsCluster(c) && !Owned(chains, c) && (k in chains || k == c)
    ensures BitsAgree(g, bits[c - 2 := true], Grown(chains, k, c))
  {
    GrownDisjoint(g, chains, k, c);
  }

  lemma CutOwned(g: Geometry, chains: ClusterLists, k: nat, i: nat, x: nat)
    requires Disjoint(g, chains) && k in chains && i < |chains[k]|
    ensures Owned(Cut(chains, k, i), x) <==> Owned(chains, x) && x !in chains[k][i..]
  {
    var ch, after := chains[k], Cut(chains, k, i);
    assert ch == ch[..i] + ch[i..];
    if Owned(chains, x) && x !in ch[i..] {
      var l :| l in chains && x in chains[l];
      assert l in after && x in after[l];
    }
    if Owned(after, x) {
      var l :| l in after && x in after[l];
      assert l in chains && x in chains[l];
      if l == k {
        NotInTail(ch, i, x);
      } else {
        assert x !in ch;
      }
    }
  }

  lemma NotInTail(ch: seq<nat>, i: nat, x: nat)
    requires i <= |ch| && x in ch[..i] && forall i, j :: 0 <= i < j < |ch| ==> ch[i] != ch[j]
    ensures x !in ch[i..]
  {
  }

  lemma CutDisjoint(g: Geometry, chains: ClusterLists, k: nat, i: nat)
    requires Disjoint(g, chains) && k in chains && i < |chains[k]|
    ensures Disjoint(g, Cut(chains, k, i))
    ensures forall x :: Owned(Cut(chains, k, i), x) <==> Owned(chains, x) && x !in chains[k][i..]
  {
    var after := Cut(chains, k, i);
    assert forall x :: x in chains[k][..i] ==> x in chains[k];
    forall x ensures Owned(after, x) <==> Owned(chains, x) && x !in chains[k][i..] {
      CutOwned(g, chains, k, i, x);
    }
  }

  lemma CutCount(g: Geometry, chains: ClusterLists, k: nat, i: nat)
    requires Disjoint(g, chains) && k in chains && i < |chains[k]|
    ensures |FreeClusters(g, Cut(chains, k, i))| == |FreeClusters(g, chains)| + (|chains[k]| - i)
  {
    hide FreeClusters, Owned;
    CutDisjoint(g, chains, k, i);
    TailDistinct(chains[k], i);
    CutFree(g, chains, k, i, Elements(chains[k][i..]));
  }

  lemma TailDistinct(ch: seq<nat>, i: nat)
    requires i <= |ch| && forall i, j :: 0 <= i < j < |ch| ==> ch[i] != ch[j]
    ensures forall m, n :: 0 <= m < n < |ch[i..]| ==> ch[i..][m] != ch[i..][n]
  {
  }

  lemma CutFree(g: Geometry, chains: ClusterLists, k: nat, i: nat, gone: set<nat>)
    requires Disjoint(g, chains) && k in chains && i < |chains[k]|
    requires forall x :: x in gone <==> x in chains[k][i..]
    requires forall x :: Owned(Cut(chains, k, i), x) <==> Owned(chains, x) && x !in chains[k][i..]
    ensures |FreeClusters(g, Cut(chains, k, i))| == |FreeClusters(g, chains)| + |gone|
  {
    hide Cut;
    forall x | x in gone ensures Owned(chains, x) && g.IsCluster(x) {
      assert x in chains[k];
      assert ClusterList(g, chains[k]);
    }
    hide Owned, ClusterList, Disjoint;
    assert FreeClusters(g, Cut(chains, k, i)) == FreeClusters(g, chains) + gone;
    assert FreeClusters(g, chains) !! gone;
  }

  ghost function Elements(ch: seq<nat>): (s: set<nat>)
    requires forall i, j :: 0 <= i < j < |ch| ==> ch[i] != ch[j]
    ensures |s| == |ch| && forall x :: x in s <==> x in ch
  {
    if ch == [] then {} else
      assert ch[0] !in ch[1..];
      {ch[0]} + Elements(ch[1..])
  }

  /** f' is f with the clusters of list k from index i on marked free, and the one before
      them, if any, marked as an end. */
  ghost predicate Freed(g: Geometry, f: seq<dword>, f': seq<dword>, ch: seq<nat>, i: nat, j: nat)
    requires i <= j <= |ch|
  {
    && |f'| == |f| == g.nFatent && ClusterList(g, ch)
    && (forall m :: i <= m < j ==> f'[ch[m]] == 0)
    && (i > 0 ==> f'[ch[i - 1]] >= g.nFatent)
    && (forall c :: 0 <= c < |f| && c !in ch[i..j] && (i > 0 ==> c != ch[i - 1]) ==> f'[c] == f[c])
  }

  lemma FreeOne(g: Geometry, f: seq<dword>, f': seq<dword>, ch: seq<nat>, i: nat, j: nat)
    requires i <= j < |ch| && Freed(g, f, f', ch, i, j)
    ensures ch[j] < |f'| && Freed(g, f, f'[ch[j] := 0], ch, i, j + 1)
  {
    assert ch[i..j + 1] == ch[i..j] + [ch[j]];
  }

  lemma CutListSpelled(g: Geometry, f: seq<dword>, f': seq<dword>, chains: ClusterLists, k: nat, i: nat, l: nat)
    requires Disjoint(g, chains) && FatAgrees(g, f, chains) && k in chains && i < |chains[k]|
    requires Freed(g, f, f', chains[k], i, |chains[k]|) && l in Cut(chains, k, i)
    ensures Spelled(g, f', Cut(chains, k, i)[l])
  {
    hide Spelled, Owned, ClusterList, Freed;
    if l != k {
      OtherListKept(g, f, f', chains, k, i, l);
    } else {
      PrefixSpelled(g, f, f', chains[k], i);
    }
  }

  lemma PrefixSpelled(g: Geometry, f: seq<dword>, f': seq<dword>, ch: seq<nat>, i: nat)
    requires Spelled(g, f, ch) && 0 < i < |ch| && Freed(g, f, f', ch, i, |ch|)
    ensures Spelled(g, f', ch[..i])
  {
    forall m | 0 <= m < i - 1 ensures f'[ch[m]] == ch[m + 1] {
      assert f[ch[m]] == ch[m + 1];
      assert ch[m] !in ch[i..|ch|];
    }
  }

  lemma OtherListKept(g: Geometry, f: seq<dword>, f': seq<dword>, chains: ClusterLists, k: nat, i: nat, l: nat)
    requires Disjoint(g, chains) && FatAgrees(g, f, chains) && k in chains && i < |chains[k]|
    requires Freed(g, f, f', chains[k], i, |chains[k]|) && l in chains && l != k
    ensures Spelled(g, f', chains[l])
  {
    hide Spelled, Owned;
    var ch := chains[k];
    forall c | c in chains[l] ensures c < |f| && f'[c] == f[c] {
      var m :| 0 <= m < |chains[l]| && chains[l][m] == c;
      assert g.IsCluster(chains[l][m]);
      assert c !in ch;
      OutsideTail(ch, i, c);
    }
    StillSpelled(g, f, f', chains[l]);
  }

  lemma OutsideTail(ch: seq<nat>, i: nat, c: nat)
    requires c !in ch && i < |ch|
    ensures c !in ch[i..|ch|] && (i > 0 ==> c != ch[i - 1])
  {
  }

  /** Freeing the rest of a list shrinks the union by exactly that. */
  lemma CutFat(g: Geometry, f: seq<dword>, f': seq<dword>, chains: ClusterLists, k: nat, i: nat)
    requires Disjoint(g, chains) && FatAgrees(g, f, chains) && k in chains && i < |chains[k]|
    requires Freed(g, f, f', chains[k], i, |chains[k]|)
    ensures FatAgrees(g, f', Cut(chains, k, i))
  {
    hide Spelled, Owned, ClusterList;
    CutDisjoint(g, chains, k, i);
    forall l | l in Cut(chains, k, i) ensures Spelled(g, f', Cut(chains, k, i)[l]) {
      CutListSpelled(g, f, f', chains, k, i, l);
    }
    CutFatFree(g, f, f', chains, k, i);
  }

  lemma CutFatFree(g: Geometry, f: seq<dword>, f': seq<dword>, chains: ClusterLists, k: nat, i: nat)
    requires Disjoint(g, chains) && FatAgrees(g, f, chains) && k in chains && i < |chains[k]|
    requires Freed(g, f, f', chains[k], i, |chains[k]|)
    ensures forall d :: g.IsCluster(d) ==> (f'[d] == 0 <==> !Owned(Cut(chains, k, i), d))
  {
    hide Spelled;
    CutDisjoint(g, chains, k, i);
    forall d | g.IsCluster(d) ensures f'[d] == 0 <==> !Owned(Cut(chains, k, i), d) {
      FreedLink(g, f, f', chains[k], i, d);
      assert d in chains[k] ==> Owned(chains, d);
    }
  }

  lemma FreedLink(g: Geometry, f: seq<dword>, f': seq<dword>, ch: seq<nat>, i: nat, d: nat)
    requires g.nFatent > 0 && i < |ch| && Freed(g, f, f', ch, i, |ch|) && d < g.nFatent
    ensures d in ch[i..] ==> f'[d] == 0
    ensures d !in ch[i..] ==> f'[d] == f[d] || (f'[d] > 0 && d in ch)
  {
    assert ch[i..|ch|] == ch[i..];
    if d in ch[i..] {
      var m :| 0 <= m < |ch[i..]| && ch[i..][m] == d;
      assert ch[i + m] == d;
    }
  }
}
