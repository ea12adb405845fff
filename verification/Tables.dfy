/** Directory tables on FAT12/16/32 as sequences of entries. */
module Tables {
  import opened Arith
  import opened Bytes
  import opened Layout
  import opened Chains
  import opened FileData
  import opened DirEntry
  import opened Directory
  import opened DirFind
  import Mount

  const PER_SECTOR := 16
  const MAX_ENTRIES := 0x1_0000

  function Blank(): Entry {
    seq(32, _ => 0)
  }

  function ZeroSector(): Sector {
    seq(512, _ => 0)
  }

  /** Where a table may lie: a root table in whole sectors between the FATs and the data area, or a
      list of clusters. */
  ghost predicate Laid(g: Geometry, fixed: bool, ch: seq<nat>) {
    && g.Ok() && g.fsType != EXFAT
    && if fixed then
         && ch == [] && g.nRootdir % PER_SECTOR == 0 && 0 < g.dirbase
         && g.fatbase + g.nFats * g.fsize <= g.dirbase && g.dirbase + g.nRootdir / PER_SECTOR <= g.database
       else ClusterList(g, ch)
  }

  function Sectors(g: Geometry, fixed: bool, ch: seq<nat>): nat {
    if fixed then g.nRootdir / PER_SECTOR else g.csize * |ch|
  }

  /** Number of entries; a table has at most 65536. */
  function Size(g: Geometry, fixed: bool, ch: seq<nat>): (n: nat)
    ensures n <= MAX_ENTRIES
  {
    var n := PER_SECTOR * Sectors(g, fixed, ch);
    if n < MAX_ENTRIES then n else MAX_ENTRIES
  }

  function TableSector(g: Geometry, fixed: bool, ch: seq<nat>, q: nat): int
    requires g.csize > 0 && q < Sectors(g, fixed, ch)
  {
    if fixed then g.dirbase + q else SectorOf(g, ch, q)
  }

  lemma SectorPlace(g: Geometry, fixed: bool, ch: seq<nat>, q: nat)
    requires Laid(g, fixed, ch) && q < Sectors(g, fixed, ch)
    ensures g.csize > 0
    ensures var s := TableSector(g, fixed, ch, q); 0 < s < g.total && !g.InTables(s) && !g.InFat2(s)
    ensures fixed ==> TableSector(g, fixed, ch, q) < g.database
    ensures !fixed ==> g.database <= TableSector(g, fixed, ch, q) && InList(g, ch, TableSector(g, fixed, ch, q))
  {
    FatInside(g);
    if fixed {
      assert g.nFats == 2 ==> g.nFats * g.fsize == 2 * g.fsize;
    } else {
      SectorInCluster(g, ch, q);
      MulLe(g.fsize, 1, g.nFats);
    }
  }

  lemma SectorsApart(g: Geometry, fixed: bool, ch: seq<nat>, q: nat, r: nat)
    requires Laid(g, fixed, ch) && g.csize > 0 && q < Sectors(g, fixed, ch) && r < Sectors(g, fixed, ch)
    requires TableSector(g, fixed, ch, q) == TableSector(g, fixed, ch, r)
    ensures q == r
  {
    if !fixed {
      SectorsDistinct(g, ch, q, r);
    }
  }

  lemma EntrySector(g: Geometry, fixed: bool, ch: seq<nat>, k: nat)
    requires k < Size(g, fixed, ch)
    ensures k / PER_SECTOR < Sectors(g, fixed, ch) && SZDIRE * (k % PER_SECTOR) + SZDIRE <= SECTOR_SIZE
  {
    BlockIndex(k, PER_SECTOR, Sectors(g, fixed, ch));
  }

  ghost function EntryOf(g: Geometry, fixed: bool, ch: seq<nat>, v: seq<Sector>, k: nat): Entry
    requires Laid(g, fixed, ch) && |v| == g.total && k < Size(g, fixed, ch)
  {
    EntrySector(g, fixed, ch, k);
    SectorPlace(g, fixed, ch, k / PER_SECTOR);
    var o := SZDIRE * (k % PER_SECTOR);
    v[TableSector(g, fixed, ch, k / PER_SECTOR)][o..o + SZDIRE]
  }

  /** The entries of a table. */
  ghost function Table(g: Geometry, fixed: bool, ch: seq<nat>, v: seq<Sector>): (t: seq<Entry>)
    requires Laid(g, fixed, ch) && |v| == g.total
    ensures |t| == Size(g, fixed, ch)
  {
    seq(Size(g, fixed, ch), k requires 0 <= k < Size(g, fixed, ch) => EntryOf(g, fixed, ch, v, k))
  }

  // The place at which a directory object stands.
  lemma StandsThere(g: Geometry, fixed: bool, ch: seq<nat>, k: nat, dptr: nat, clust: nat, sect: nat, dir: nat)
    requires Laid(g, fixed, ch) && g.csize > 0 && Stands(g, fixed, ch, k, dptr, clust, sect, dir)
    ensures k < Size(g, fixed, ch) && k / PER_SECTOR < Sectors(g, fixed, ch)
    ensures sect == TableSector(g, fixed, ch, k / PER_SECTOR) && dir == SZDIRE * (k % PER_SECTOR)
  {
    hide ClusterList, Geometry.Ok;
    DivUnique(SZDIRE * k, SECTOR_SIZE, k / PER_SECTOR, SZDIRE * (k % PER_SECTOR));
    if fixed {
      RootIndex(k, g.nRootdir);
    } else {
      SizeBound(k, g.csize * |ch|);
    }
  }

  lemma RootIndex(k: nat, n: nat)
    requires k < n && n % PER_SECTOR == 0
    ensures k / PER_SECTOR < n / PER_SECTOR && k < PER_SECTOR * (n / PER_SECTOR)
  {
  }

  lemma SizeBound(k: nat, n: nat)
    requires k / PER_SECTOR < n
    ensures k < PER_SECTOR * n
  {
  }

  lemma InTableSize(g: Geometry, fixed: bool, ch: seq<nat>, k: nat)
    requires Laid(g, fixed, ch) && g.csize > 0
    ensures InTable(g, fixed, ch, k) <==> k < Size(g, fixed, ch)
  {
    hide ClusterList, Geometry.Ok;
    DivUnique(SZDIRE * k, SECTOR_SIZE, k / PER_SECTOR, SZDIRE * (k % PER_SECTOR));
    if fixed {
      DivUnique(g.nRootdir, PER_SECTOR, g.nRootdir / PER_SECTOR, 0);
    } else {
      ClusterBound(k / PER_SECTOR, g.csize, |ch|);
      SizeIndex(k, g.csize * |ch|);
    }
  }

  lemma ClusterBound(q: nat, c: nat, n: nat)
    requires c > 0
    ensures q / c < n <==> q < c * n
  {
    QuotientBounds(q, c);
    if q / c < n {
      MulLe(c, q / c + 1, n);
    } else {
      MulLe(c, n, q / c);
    }
  }

  lemma QuotientBounds(q: nat, c: nat)
    requires c > 0
    ensures c * (q / c) <= q < c * (q / c + 1)
  {
    MulSucc(c, q / c);
  }

  // Entry k, when the object stands there.
  lemma EntryThere(g: Geometry, fixed: bool, ch: seq<nat>, v: seq<Sector>, k: nat, dptr: nat, clust: nat, sect: nat, dir: nat)
    requires Laid(g, fixed, ch) && g.csize > 0 && |v| == g.total && Stands(g, fixed, ch, k, dptr, clust, sect, dir)
    ensures k < Size(g, fixed, ch) && 0 < sect < |v| && dir + SZDIRE <= SECTOR_SIZE && !g.InTables(sect)
    ensures Table(g, fixed, ch, v)[k] == v[sect][dir..dir + SZDIRE]
  {
    hide ClusterList, Geometry.Ok, TableSector, Stands;
    StandsThere(g, fixed, ch, k, dptr, clust, sect, dir);
    EntrySector(g, fixed, ch, k);
    SectorPlace(g, fixed, ch, k / PER_SECTOR);
  }

  /** The entries dir_find has looked at are the first ones of the table. */
  lemma EntriesAreTable(g: Geometry, fixed: bool, ch: seq<nat>, v: seq<Sector>, es: seq<Entry>)
    requires Laid(g, fixed, ch) && g.csize > 0 && |v| == g.total && AreEntries(g, fixed, ch, v, es)
    ensures es <= Table(g, fixed, ch, v)
  {
    hide Stands, Laid, Table;
    var t := Table(g, fixed, ch, v);
    forall k | 0 <= k < |es| ensures k < |t| && es[k] == t[k]
    {
      assert EntryAt(g, fixed, ch, v, k, es[k]);
      var dptr: nat, clust: nat, sect: nat, dir: nat :|
        Stands(g, fixed, ch, k, dptr, clust, sect, dir) && sect < |v| && dir + SZDIRE <= SECTOR_SIZE && v[sect][dir..dir + SZDIRE] == es[k];
      EntryThere(g, fixed, ch, v, k, dptr, clust, sect, dir);
    }
    if es != [] {
      assert es[|es| - 1] == t[|es| - 1];
    }
  }

  /** The table only depends on its own sectors. */
  lemma SameTable(g: Geometry, fixed: bool, ch: seq<nat>, v: seq<Sector>, w: seq<Sector>)
    requires Laid(g, fixed, ch) && |v| == |w| == g.total
    requires forall s :: 0 <= s < g.total && !g.InTables(s) && !g.InFat2(s) ==> v[s] == w[s]
    ensures Table(g, fixed, ch, v) == Table(g, fixed, ch, w)
  {
    hide Laid, TableSector;
    forall k | 0 <= k < Size(g, fixed, ch) ensures Table(g, fixed, ch, v)[k] == Table(g, fixed, ch, w)[k] {
      EntrySector(g, fixed, ch, k);
      SectorPlace(g, fixed, ch, k / PER_SECTOR);
    }
  }

  /** Storing an entry changes that entry of the table and no other. */
  lemma EntryStored(g: Geometry, fixed: bool, ch: seq<nat>, v: seq<Sector>, k: nat, dptr: nat, clust: nat, sect: nat, dir: nat, e: Entry)
    requires Laid(g, fixed, ch) && g.csize > 0 && |v| == g.total && Stands(g, fixed, ch, k, dptr, clust, sect, dir)
    ensures k < Size(g, fixed, ch) && sect < |v| && dir + SZDIRE <= SECTOR_SIZE
    ensures Table(g, fixed, ch, v[sect := Splice(v[sect], dir, e)]) == Table(g, fixed, ch, v)[k := e]
  {
    hide Laid, TableSector, Stands;
    EntryThere(g, fixed, ch, v, k, dptr, clust, sect, dir);
    StandsThere(g, fixed, ch, k, dptr, clust, sect, dir);
    var w := v[sect := Splice(v[sect], dir, e)];
    forall j | 0 <= j < Size(g, fixed, ch) ensures Table(g, fixed, ch, w)[j] == if j == k then e else Table(g, fixed, ch, v)[j] {
      OtherEntry(g, fixed, ch, v, k, j, e);
    }
  }

  lemma OtherEntry(g: Geometry, fixed: bool, ch: seq<nat>, v: seq<Sector>, k: nat, j: nat, e: Entry)
    requires Laid(g, fixed, ch) && g.csize > 0 && |v| == g.total && k < Size(g, fixed, ch) && j < Size(g, fixed, ch)
    ensures k / PER_SECTOR < Sectors(g, fixed, ch)
    ensures var s, o := TableSector(g, fixed, ch, k / PER_SECTOR), SZDIRE * (k % PER_SECTOR);
            && 0 < s < |v| && o + SZDIRE <= SECTOR_SIZE
            && EntryOf(g, fixed, ch, v[s := Splice(v[s], o, e)], j) == if j == k then e else EntryOf(g, fixed, ch, v, j)
  {
    hide Laid, TableSector;
    EntrySector(g, fixed, ch, k);
    SectorPlace(g, fixed, ch, k / PER_SECTOR);
    EntrySector(g, fixed, ch, j);
    SectorPlace(g, fixed, ch, j / PER_SECTOR);
    var s, o := TableSector(g, fixed, ch, k / PER_SECTOR), SZDIRE * (k % PER_SECTOR);
    if TableSector(g, fixed, ch, j / PER_SECTOR) == s {
      SectorsApart(g, fixed, ch, k / PER_SECTOR, j / PER_SECTOR);
      var p := SZDIRE * (j % PER_SECTOR);
      if j != k {
        assert p + SZDIRE <= o || o + SZDIRE <= p;
      }
      SplicedPart(v[s], o, e, p);
    }
  }

  lemma SplicedPart(s: Sector, o: nat, e: Entry, p: nat)
    requires o + SZDIRE <= SECTOR_SIZE && p + SZDIRE <= SECTOR_SIZE && (p == o || p + SZDIRE <= o || o + SZDIRE <= p)
    ensures Splice(s, o, e)[p..p + SZDIRE] == if p == o then e else s[p..p + SZDIRE]
  {
  }

  // Sector q of a list, counted over a longer list.
  lemma TableGrown(g: Geometry, ch: seq<nat>, c: nat, v: seq<Sector>, w: seq<Sector>)
    requires Laid(g, false, ch) && Laid(g, false, ch + [c]) && g.csize > 0 && |v| == |w| == g.total
    requires forall s :: 0 <= s < g.total && !g.InTables(s) && !g.InCluster(c, s) ==> v[s] == w[s]
    requires forall s :: 0 <= s < g.total && g.InCluster(c, s) ==> w[s] == ZeroSector()
    ensures Size(g, false, ch) <= Size(g, false, ch + [c])
    ensures Table(g, false, ch + [c], w)
            == Table(g, false, ch, v) + seq(Size(g, false, ch + [c]) - Size(g, false, ch), _ => Blank())
  {
    hide Laid, TableSector;
    MulLe(g.csize, |ch|, |ch| + 1);
    var n, m := Size(g, false, ch), Size(g, false, ch + [c]);
    forall k | 0 <= k < m
      ensures Table(g, false, ch + [c], w)[k] == if k < n then Table(g, false, ch, v)[k] else Blank()
    {
      GrownEntry(g, ch, c, v, w, k);
    }
    var blanks: seq<Entry> := seq(m - n, _ => Blank());
    assert |Table(g, false, ch + [c], w)| == |Table(g, false, ch, v) + blanks|;
  }

  lemma GrownEntry(g: Geometry, ch: seq<nat>, c: nat, v: seq<Sector>, w: seq<Sector>, k: nat)
    requires Laid(g, false, ch) && Laid(g, false, ch + [c]) && g.csize > 0 && |v| == |w| == g.total
    requires forall s :: 0 <= s < g.total && !g.InTables(s) && !g.InCluster(c, s) ==> v[s] == w[s]
    requires forall s :: 0 <= s < g.total && g.InCluster(c, s) ==> w[s] == ZeroSector()
    requires k < Size(g, false, ch + [c])
    ensures EntryOf(g, false, ch + [c], w, k) == if k < Size(g, false, ch) then EntryOf(g, false, ch, v, k) else Blank()
  {
    hide Laid, SectorOf, ClusterList, Geometry.Ok;
    var q, ch' := k / PER_SECTOR, ch + [c];
    EntrySector(g, false, ch', k);
    SectorPlace(g, false, ch', q);
    var s := TableSector(g, false, ch', q);
    SizeIndex(k, Sectors(g, false, ch));
    if k < Size(g, false, ch) {
      SectorPlace(g, false, ch, q);
      OldSector(g, ch, c, q);
    } else {
      NewSector(g, ch, c, q);
    }
  }

  lemma SizeIndex(k: nat, n: nat)
    ensures k < PER_SECTOR * n <==> k / PER_SECTOR < n
  {
  }

  lemma OldSector(g: Geometry, ch: seq<nat>, c: nat, q: nat)
    requires Laid(g, false, ch) && Laid(g, false, ch + [c]) && g.csize > 0 && q < g.csize * |ch|
    ensures q < g.csize * |ch + [c]| && SectorOf(g, ch + [c], q) == SectorOf(g, ch, q) && !g.InCluster(c, SectorOf(g, ch, q))
  {
    hide Geometry.Ok;
    MulLe(g.csize, |ch|, |ch| + 1);
    SectorInCluster(g, ch, q);
    if g.InCluster(c, SectorOf(g, ch, q)) {
      ClustersDisjoint(g, c, ch[q / g.csize], SectorOf(g, ch, q));
      DistinctIndex(g, ch + [c], q / g.csize, |ch|);
    }
  }

  lemma NewSector(g: Geometry, ch: seq<nat>, c: nat, q: nat)
    requires Laid(g, false, ch + [c]) && g.csize > 0 && g.csize * |ch| <= q < g.csize * |ch + [c]|
    ensures g.InCluster(c, SectorOf(g, ch + [c], q))
  {
    hide Geometry.Ok, ClusterList;
    SectorInCluster(g, ch + [c], q);
    ClusterBound(q, g.csize, |ch|);
    ClusterBound(q, g.csize, |ch| + 1);
  }

  /** The root table of a FAT12/16 volume that mounting accepts lies where a root table may lie. */
  lemma MountedRoot(b: Mount.Bpb, bsect: nat, total: nat)
    requires Mount.Analysed(b, bsect, total).Some? && Mount.NoWrap(b) && bsect + Mount.VolumeSize(b) <= total < NO_SECTOR
    requires Mount.Analysed(b, bsect, total).value.fsType != FAT32
    ensures Laid(Mount.Analysed(b, bsect, total).value, true, [])
  {
    Mount.MountedOk(b, bsect, total);
    Mount.AreaIs(b);
    SmallMod(Mount.FatSize(b) * b.numFats, 0x1_0000_0000);
  }
}
