/** Adding entries to a directory table on FAT12/16/32: stretching the table, allocating a block of
    entries, storing a name. */
module Register {
  import opened Arith
  import opened Bytes
  import opened Layout
  import opened FatTable
  import opened Chains
  import opened Volume
  import opened FatAccess
  import opened ChainOps
  import opened FileData
  import opened DirEntry
  import opened Directory
  import opened Lfn
  import opened DirFind
  import opened Tables

  /** A directory object on a valid volume: its table is the root table, or a list of clusters that
      hold metadata. */
  ghost predicate Ready(dp: DIR, ch: seq<nat>)
    reads dp.fs, dp.fs.win, dp.obj
    ensures Ready(dp, ch) ==> dp.fs.WindowOk() && dp.fs.g.Ok() && dp.fs.g.csize > 0
    ensures Ready(dp, ch) ==> Laid(dp.fs.g, Static(dp.fs.g, dp.obj.sclust), ch) && |dp.fs.View()| == dp.fs.g.total
  {
    var g := dp.fs.g;
    && dp.fs.Valid() && Laid(g, Static(g, dp.obj.sclust), ch)
    && (Static(g, dp.obj.sclust) || ListOfTable(dp.fs, FirstOf(g, dp.obj.sclust), ch))
  }

  ghost predicate ListOfTable(fs: FATFS, key: nat, ch: seq<nat>)
    reads fs`chains, fs`sys
  {
    key in fs.chains && fs.chains[key] == ch && forall c :: c in ch ==> c in fs.sys
  }

  /** The sector belongs to the table. */
  ghost predicate OfTable(g: Geometry, fixed: bool, ch: seq<nat>, s: int) {
    if fixed then g.dirbase <= s < g.dirbase + g.nRootdir / PER_SECTOR else InList(g, ch, s)
  }

  /** Nothing changes outside the table and the FATs. */
  ghost predicate Elsewhere(g: Geometry, fixed: bool, ch: seq<nat>, v: seq<Sector>, w: seq<Sector>) {
    |v| == |w| && forall s :: 0 <= s < |v| && !g.InTables(s) && !OfTable(g, fixed, ch, s) ==> v[s] == w[s]
  }

  /** The table may have grown by blank entries; nothing else has changed but the FATs. */
  ghost predicate Extended(g: Geometry, fixed: bool, ch: seq<nat>, ch': seq<nat>, v: seq<Sector>, w: seq<Sector>) {
    && Laid(g, fixed, ch) && Laid(g, fixed, ch') && |v| == |w| == g.total && ch <= ch'
    && Table(g, fixed, ch, v) <= Table(g, fixed, ch', w)
    && (forall k :: Size(g, fixed, ch) <= k < Size(g, fixed, ch') ==> Table(g, fixed, ch', w)[k] == Blank())
    && Elsewhere(g, fixed, ch', v, w)
  }

  lemma ExtendedRefl(g: Geometry, fixed: bool, ch: seq<nat>, v: seq<Sector>, w: seq<Sector>)
    requires Laid(g, fixed, ch) && |v| == |w| == g.total
    requires forall s :: 0 <= s < g.total && !g.InTables(s) && !g.InFat2(s) ==> v[s] == w[s]
    ensures Extended(g, fixed, ch, ch, v, w)
  {
    hide Table, Laid, OfTable;
    SameTable(g, fixed, ch, v, w);
    NotInFat2(g);
  }

  lemma NotInFat2(g: Geometry)
    ensures forall s :: !g.InTables(s) ==> !g.InFat2(s)
  {
  }

  lemma ListLonger(g: Geometry, fixed: bool, ch: seq<nat>, ch': seq<nat>, s: int)
    requires ch <= ch' && OfTable(g, fixed, ch, s)
    ensures OfTable(g, fixed, ch', s)
  {
    if !fixed {
      var i :| 0 <= i < |ch| && g.InCluster(ch[i], s);
      assert ch'[i] == ch[i];
    }
  }

  lemma ExtendedTwice(g: Geometry, fixed: bool, a: seq<nat>, b: seq<nat>, c: seq<nat>, u: seq<Sector>, v: seq<Sector>, w: seq<Sector>)
    requires Extended(g, fixed, a, b, u, v) && Extended(g, fixed, b, c, v, w)
    ensures Extended(g, fixed, a, c, u, w)
  {
    hide Table, Laid, OfTable;
    var t, t', t'' := Table(g, fixed, a, u), Table(g, fixed, b, v), Table(g, fixed, c, w);
    forall k | |t| <= k < |t''| ensures t''[k] == Blank() {
      if k < |t'| {
        assert t''[k] == t'[k];
      }
    }
    forall s | 0 <= s < |u| && !g.InTables(s) && !OfTable(g, fixed, c, s) ensures u[s] == w[s] {
      if OfTable(g, fixed, b, s) {
        ListLonger(g, fixed, b, c, s);
      }
    }
  }

  lemma ReadyIsTable(dp: DIR, ch: seq<nat>)
    requires Ready(dp, ch)
    ensures IsTable(dp.fs, dp.obj, ch) && RootChained(dp)
    ensures TableIsMeta(dp.fs.g, dp.fs.sys, Static(dp.fs.g, dp.obj.sclust), ch)
  {
    hide FATFS.WindowOk, FatTable.Links, Mirrored, Overlaid, FatBytes, Stands, Laid;
    var g, fixed := dp.fs.g, Static(dp.fs.g, dp.obj.sclust);
    if !fixed {
      ListSpelled(dp, ch);
    } else {
      assert Laid(g, fixed, ch);
      FixedParts(g, ch);
    }
    forall k: nat, dptr: nat, clust: nat, sect: nat, dir: nat | Stands(g, fixed, ch, k, dptr, clust, sect, dir)
      ensures g.Meta(dp.fs.sys, sect) {
      StandsThere(g, fixed, ch, k, dptr, clust, sect, dir);
      SectorPlace(g, fixed, ch, k / PER_SECTOR);
      TableSectorMeta(g, fixed, ch, dp.fs.sys, sect);
    }
  }

  lemma FixedParts(g: Geometry, ch: seq<nat>)
    requires Laid(g, true, ch)
    ensures ch == [] && g.dirbase > 0 && g.nRootdir % 16 == 0
  {
  }

  lemma ListSpelled(dp: DIR, ch: seq<nat>)
    requires Ready(dp, ch) && !Static(dp.fs.g, dp.obj.sclust)
    ensures IsTable(dp.fs, dp.obj, ch) && Spelled(dp.fs.g, dp.fs.Links(), ch) && RootChained(dp)
    ensures Disjoint(dp.fs.g, dp.fs.chains)
  {
    hide FATFS.WindowOk, FatTable.Links, Mirrored, Overlaid, FatBytes, FatValue;
    DenotedWalks(dp.fs.g, dp.fs.Links(), dp.obj.Status(), ch);
  }

  lemma TableSectorMeta(g: Geometry, fixed: bool, ch: seq<nat>, sys: set<nat>, s: int)
    requires g.Ok() && 0 < s < g.total && !g.InFat2(s)
    requires if fixed then s < g.database else InList(g, ch, s) && forall c :: c in ch ==> c in sys
    ensures g.Meta(sys, s)
  {
    forall c | g.IsCluster(c) && g.InCluster(c, s) ensures c in sys {
      ClusterBounds(g, c);
      if !fixed {
        var i :| 0 <= i < |ch| && g.InCluster(ch[i], s);
        ClustersDisjoint(g, c, ch[i], s);
      }
    }
  }

  /** The cluster is filled with zeros; everything else is as before. */
  ghost predicate Cleared(g: Geometry, c: nat, v: seq<Sector>, w: seq<Sector>) {
    && |v| == |w|
    && (forall s :: 0 <= s < |v| && !g.InFat2(s) && !g.InCluster(c, s) ==> v[s] == w[s])
    && (forall s :: 0 <= s < |v| && g.InCluster(c, s) ==> w[s] == ZeroSector())
  }

  // What the loop of dir_clear has done after n sectors.
  ghost predicate Zeroed(v: seq<Sector>, w: seq<Sector>, sect: nat, n: nat) {
    && |v| == |w|
    && (forall s :: 0 <= s < |v| && !(sect <= s < sect + n) ==> v[s] == w[s])
    && (forall s :: sect <= s < sect + n && s < |v| ==> w[s] == ZeroSector())
  }

  // dir_clear, the loop.
  method ZeroSectors(fs: FATFS, sect: nat, count: nat) returns (n: nat)
    requires fs.win.Length == SECTOR_SIZE && fs.win[..] == ZeroSector() && sect + count <= |fs.disk|
    modifies fs`disk, fs`faulted
    ensures n <= count && |fs.disk| == |old(fs.disk)| && (n < count ==> fs.faulted) && (old(fs.faulted) ==> fs.faulted)
    ensures n == count ==> Zeroed(old(fs.disk), fs.disk, sect, n)
  {
    n := 0;
    while n < count
      invariant n <= count && Zeroed(old(fs.disk), fs.disk, sect, n) && (old(fs.faulted) ==> fs.faulted)
    {
      var w := fs.win[..];
      var ok := fs.DiskWrite(sect + n, [w]);
      if !ok {
        return;
      }
      var one: seq<Sector> := [w];
      assert fs.disk[sect + n] == one[0];
      n := n + 1;
    }
  }

  // dir_clear
  method DirClear(fs: FATFS, clst: dword) returns (res: FRESULT)
    requires fs.Valid() && fs.g.fsType != EXFAT && fs.g.IsCluster(clst) && Owned(fs.chains, clst)
    modifies fs`disk, fs`faulted, fs`wflag, fs`winsect, fs`sys, fs.win
    ensures res == OK ==> fs.Valid() && fs.sys == old(fs.sys) + {clst} && Cleared(fs.g, clst, old(fs.View()), fs.View())
    ensures res != OK ==> res == DISK_ERR && fs.faulted
    ensures old(fs.faulted) ==> fs.faulted
  {
    hide FATFS.TableOk, FATFS.WindowOk, FatBytes, FatTable.Links, Disjoint, FatAgrees, Owned, Zeroed, Mirrored, CountOk, Cleared, Overlaid;
    ghost var g, v, f := fs.g, fs.View(), fs.Links();
    FatOfTable(fs);
    WindowParts(fs);
    ClusterBounds(fs.g, clst);
    FatInside(fs.g);
    res := fs.SyncWindow();
    if res != OK {
      return;
    }
    ghost var d := fs.disk;
    WindowParts(fs);
    var sect := fs.g.ToSector(clst);
    fs.winsect := sect;
    forall i | 0 <= i < SECTOR_SIZE {
      fs.win[i] := 0;
    }
    assert fs.win[..] == ZeroSector();
    var n := ZeroSectors(fs, sect, fs.g.csize);
    if n < fs.g.csize {
      return DISK_ERR;
    }
    fs.sys := fs.sys + {clst};
    ClearedFrom(g, clst, v, d, fs.disk);
    StillMirrored(g, clst, d, fs.disk, fs.agreed && !fs.faulted);
    CleanWindow(fs);
    ClearedLinks(g, clst, v, fs.disk);
    assert fs.Links() == f;
    TableFromFat(fs, f);
    res := OK;
  }

  lemma FatOfTable(fs: FATFS)
    requires fs.Valid() && fs.g.fsType != EXFAT
    ensures FatAgrees(fs.g, fs.Links(), fs.chains)
  {
  }

  lemma TableFromFat(fs: FATFS, f: seq<dword>)
    requires fs.WindowOk() && fs.g.fsType != EXFAT && fs.Links() == f && FatAgrees(fs.g, f, fs.chains)
    ensures fs.TableOk()
  {
  }

  // What a clean window means.
  lemma WindowParts(fs: FATFS)
    requires fs.WindowOk()
    ensures fs.win.Length == SECTOR_SIZE && |fs.disk| == fs.g.total && fs.g.Ok()
    ensures !fs.wflag ==> fs.View() == fs.disk && (fs.agreed && !fs.faulted ==> Mirrored(fs.g, fs.disk, false, fs.winsect))
  {
  }

  lemma CleanWindow(fs: FATFS)
    requires fs.g.Ok() && |fs.disk| == fs.g.total && fs.win.Length == SECTOR_SIZE && !fs.wflag
    requires fs.winsect < |fs.disk| && fs.win[..] == fs.disk[fs.winsect]
    requires fs.agreed && !fs.faulted ==> Mirrored(fs.g, fs.disk, false, fs.winsect)
    ensures fs.WindowOk() && fs.View() == fs.disk
  {
  }

  lemma ClearedFrom(g: Geometry, c: nat, v: seq<Sector>, d: seq<Sector>, w: seq<Sector>)
    requires g.Ok() && g.IsCluster(c) && SameView(g, v, d) && Zeroed(d, w, g.FirstSector(c), g.csize)
    ensures Cleared(g, c, v, w) && (g.FirstSector(c) < |w| ==> w[g.FirstSector(c)] == ZeroSector())
  {
  }

  lemma StillMirrored(g: Geometry, c: nat, d: seq<Sector>, w: seq<Sector>, agreed: bool)
    requires g.Ok() && g.IsCluster(c) && |d| == |w| == g.total && Zeroed(d, w, g.FirstSector(c), g.csize)
    requires agreed ==> exists x: nat :: Mirrored(g, d, false, x)
    ensures agreed ==> forall x: nat :: Mirrored(g, w, false, x)
  {
    ClusterBounds(g, c);
    FatInside(g);
  }

  lemma ClearedLinks(g: Geometry, c: nat, v: seq<Sector>, w: seq<Sector>)
    requires g.Ok() && g.IsCluster(c) && |v| == |w| == g.total && Cleared(g, c, v, w)
    ensures FatBytes(g, v) == FatBytes(g, w)
  {
    ClusterBounds(g, c);
    FatInside(g);
    SameRegion(v, w, g.fatbase, g.fsize);
  }

  lemma ListTracked(dp: DIR, ch: seq<nat>)
    requires Ready(dp, ch) && !Static(dp.fs.g, dp.obj.sclust)
    ensures var key := FirstOf(dp.fs.g, dp.obj.sclust);
            && key in dp.fs.chains && |ch| > 0 && ch[|ch| - 1] >= 2 && Tracks(dp.fs, dp.obj, key) && ListedAt(dp.fs.chains, key, |ch| - 1, ch[|ch| - 1])
            && dp.fs.chains[key] == ch && Answers(dp.fs.g, dp.obj.Status(), ch, |ch| - 1)
  {
    hide FATFS.WindowOk, FatTable.Links, Mirrored, Overlaid, FatBytes, FatValue;
    ListSpelled(dp, ch);
  }

  // A free cluster has become the last of the table's list and has been cleared.
  lemma StretchedTable(g: Geometry, ch: seq<nat>, c: nat, u: seq<Sector>, v: seq<Sector>, w: seq<Sector>)
    requires Laid(g, false, ch) && ClusterList(g, ch + [c]) && |u| == |v| == |w| == g.total
    requires SameOutsideTables(g, u, v) && Cleared(g, c, v, w)
    ensures Extended(g, false, ch, ch + [c], u, w)
  {
    hide Table, ClusterList, Geometry.Ok;
    NotInFat2(g);
    LaidParts(g, ch);
    TableGrown(g, ch, c, u, w);
    forall s | g.InCluster(c, s) ensures OfTable(g, false, ch + [c], s) {
      assert (ch + [c])[|ch|] == c;
    }
  }

  lemma LaidParts(g: Geometry, ch: seq<nat>)
    requires Laid(g, false, ch)
    ensures g.csize > 0
  {
  }

  // dir_next with stretching, at the end of the table: another cluster, filled with blank entries.
  method StretchTable(dp: DIR, ghost ch: seq<nat>) returns (res: FRESULT, clst: dword)
    requires Ready(dp, ch) && !Static(dp.fs.g, dp.obj.sclust) && |ch| > 0 && dp.clust == ch[|ch| - 1]
    modifies dp.fs, dp.fs.win, dp.obj`stat, dp.obj`nCont, dp.obj`nFrag
    ensures res == OK ==> dp.fs.g.IsCluster(clst) && Ready(dp, ch + [clst])
                          && Extended(dp.fs.g, false, ch, ch + [clst], old(dp.fs.View()), dp.fs.View())
    ensures res == DENIED ==> Ready(dp, ch) && Extended(dp.fs.g, false, ch, ch, old(dp.fs.View()), dp.fs.View())
                              && FreeClusters(dp.fs.g, dp.fs.chains) == {}
    ensures res == OK || res == DENIED || (res == DISK_ERR && dp.fs.faulted)
    ensures old(dp.fs.faulted) ==> dp.fs.faulted
  {
    hide FATFS.WindowOk, FATFS.ListsOk, FATFS.TableOk, FATFS.Valid, FatTable.Links, Mirrored, Overlaid, FatBytes, FatValue, Spelled, FatAgrees, FreeClusters;
    hide Extended, Answers, Owned, Laid, Cleared, Ready, Tracks, ListedAt, Denotes, SameOutsideTables, ListOfTable, ClusterList, Geometry.Ok;
    ghost var g, key, u := dp.fs.g, FirstOf(dp.fs.g, dp.obj.sclust), dp.fs.View();
    ListTracked(dp, ch);
    ReadyParts(dp, ch);
    clst := CreateChain(dp.fs, dp.obj, dp.clust, key, |ch| - 1);
    if clst == 0 {
      KeptTable(dp, ch, key, u);
      return DENIED, clst;
    }
    if clst == 1 {
      return INT_ERR, clst;
    }
    if clst == IO_ERROR {
      return DISK_ERR, clst;
    }
    ghost var v := dp.fs.View();
    GrownList(dp.fs, key, ch, clst);
    res := DirClear(dp.fs, clst);
    if res != OK {
      return DISK_ERR, clst;
    }
    SizeOfView(dp.fs);
    StretchedTable(g, ch, clst, u, v, dp.fs.View());
    dp.obj.stat := if dp.obj.stat / 4 % 2 == 1 then dp.obj.stat else dp.obj.stat + 4;
    LaidMore(g, ch, clst, u, dp.fs.View());
    MakeReady(dp, ch + [clst], key);
  }

  lemma SizeOfView(fs: FATFS)
    requires fs.Valid()
    ensures |fs.View()| == fs.g.total
  {
  }

  lemma ReadyParts(dp: DIR, ch: seq<nat>)
    requires Ready(dp, ch) && !Static(dp.fs.g, dp.obj.sclust)
    ensures dp.fs.Valid() && dp.fs.g.fsType != EXFAT && ListOfTable(dp.fs, FirstOf(dp.fs.g, dp.obj.sclust), ch)
    ensures forall c :: c in ch ==> c in dp.fs.sys
  {
  }

  // Only the FATs have changed, if anything.
  lemma KeptTable(dp: DIR, ch: seq<nat>, key: nat, u: seq<Sector>)
    requires dp.fs.Valid() && Laid(dp.fs.g, false, ch) && key == FirstOf(dp.fs.g, dp.obj.sclust)
    requires key in dp.fs.chains && dp.fs.chains[key] == ch && forall c :: c in ch ==> c in dp.fs.sys
    requires |u| == dp.fs.g.total && SameOutsideTables(dp.fs.g, u, dp.fs.View()) && !Static(dp.fs.g, dp.obj.sclust)
    ensures Ready(dp, ch) && Extended(dp.fs.g, false, ch, ch, u, dp.fs.View())
  {
    hide Extended, FATFS.Valid, Laid;
    SizeOfView(dp.fs);
    ExtendedRefl(dp.fs.g, false, ch, u, dp.fs.View());
  }

  lemma MakeReady(dp: DIR, ch: seq<nat>, key: nat)
    requires dp.fs.Valid() && Laid(dp.fs.g, false, ch) && !Static(dp.fs.g, dp.obj.sclust) && key == FirstOf(dp.fs.g, dp.obj.sclust)
    requires key in dp.fs.chains && dp.fs.chains[key] == ch && forall c :: c in ch ==> c in dp.fs.sys
    ensures Ready(dp, ch)
  {
    hide FATFS.Valid, Laid;
    SizeOfView(dp.fs);
  }

  lemma LaidMore(g: Geometry, ch: seq<nat>, c: nat, u: seq<Sector>, w: seq<Sector>)
    requires Extended(g, false, ch, ch + [c], u, w)
    ensures Laid(g, false, ch + [c])
  {
  }

  lemma GrownList(fs: FATFS, key: nat, ch: seq<nat>, c: nat)
    requires fs.Valid() && key in fs.chains && fs.chains[key] == ch + [c]
    ensures ClusterList(fs.g, ch + [c]) && fs.g.IsCluster(c) && Owned(fs.chains, c)
  {
    hide FATFS.WindowOk, FATFS.TableOk;
    assert (ch + [c])[|ch|] == c;
  }

  lemma KeptReady(dp: DIR, ch: seq<nat>, u: seq<Sector>)
    requires dp.fs.WindowOk() && |u| == dp.fs.g.total && (u == dp.fs.View() || SameView(dp.fs.g, u, dp.fs.View()))
    requires Laid(dp.fs.g, Static(dp.fs.g, dp.obj.sclust), ch)
    ensures Extended(dp.fs.g, Static(dp.fs.g, dp.obj.sclust), ch, ch, u, dp.fs.View())
  {
    hide Extended, FATFS.WindowOk, Laid;
    NotInFat2(dp.fs.g);
    ExtendedRefl(dp.fs.g, Static(dp.fs.g, dp.obj.sclust), ch, u, dp.fs.View());
  }

  lemma ReadyFat(dp: DIR, ch: seq<nat>)
    requires Ready(dp, ch)
    ensures dp.fs.WindowOk() && dp.fs.ListsOk() && FatAgrees(dp.fs.g, dp.fs.Links(), dp.fs.chains)
    ensures dp.fs.g.fsType != EXFAT && Laid(dp.fs.g, Static(dp.fs.g, dp.obj.sclust), ch)
    ensures Static(dp.fs.g, dp.obj.sclust) || ListOfTable(dp.fs, FirstOf(dp.fs.g, dp.obj.sclust), ch)
  {
  }

  lemma ReadyAgain(dp: DIR, ch: seq<nat>, f: seq<dword>)
    requires dp.fs.WindowOk() && dp.fs.ListsOk() && dp.fs.Links() == f && FatAgrees(dp.fs.g, f, dp.fs.chains)
    requires dp.fs.g.fsType != EXFAT && Laid(dp.fs.g, Static(dp.fs.g, dp.obj.sclust), ch)
    requires Static(dp.fs.g, dp.obj.sclust) || ListOfTable(dp.fs, FirstOf(dp.fs.g, dp.obj.sclust), ch)
    ensures Ready(dp, ch)
  {
  }

  // Where the object stands does not depend on clusters added to the list.
  lemma StandsLonger(g: Geometry, ch: seq<nat>, c: nat, k: nat, dptr: nat, clust: nat, sect: nat, dir: nat)
    requires g.Ok() && g.csize > 0 && Stands(g, false, ch, k, dptr, clust, sect, dir) && ClusterList(g, ch) && ClusterList(g, ch + [c])
    ensures Stands(g, false, ch + [c], k, dptr, clust, sect, dir)
  {
    hide ClusterList, Geometry.Ok;
    MulLe(g.csize, |ch|, |ch| + 1);
    SectorOfPrefix(g, ch, ch + [c], SZDIRE * k / SECTOR_SIZE);
  }

  // dir_next with stretching, on a cluster boundary.
  method NextClusterStretch(dp: DIR, ofs: nat, ghost ch: seq<nat>, ghost k: nat) returns (res: FRESULT, ghost ch': seq<nat>)
    requires Ready(dp, ch) && At(dp, ch, k) && !Static(dp.fs.g, dp.obj.sclust)
    requires ofs == SZDIRE * k + SZDIRE < MAX_DIR && ofs % SECTOR_SIZE == 0 && ofs / SECTOR_SIZE % dp.fs.g.csize == 0
    modifies dp`sect, dp`clust, dp.fs, dp.fs.win, dp.obj`stat, dp.obj`nCont, dp.obj`nFrag
    ensures res != DISK_ERR ==> Ready(dp, ch') && Extended(dp.fs.g, false, ch, ch', old(dp.fs.View()), dp.fs.View())
    ensures res == OK ==> dp.sect != 0 && Stands(dp.fs.g, false, ch', k + 1, ofs, dp.clust, dp.sect, 0)
    ensures res == DENIED ==> ch' == ch && !InTable(dp.fs.g, false, ch, k + 1) && FreeClusters(dp.fs.g, dp.fs.chains) == {}
    ensures res == OK || res == DENIED || (res == DISK_ERR && dp.fs.faulted)
    ensures old(dp.fs.faulted) ==> dp.fs.faulted
  {
    hide FATFS.WindowOk, FATFS.ListsOk, FATFS.TableOk, FATFS.Valid, FatTable.Links, Mirrored, Overlaid, FatBytes, FatValue, FatAgrees, FreeClusters;
    hide Extended, Laid, ListOfTable, ClusterList, Geometry.Ok, Stands, Walks, ClusterIndex, Geometry.ToSector, InTable, Size, Ready, SameView;
    ghost var g, u, f := dp.fs.g, dp.fs.View(), dp.fs.Links();
    res, ch' := OK, ch;
    ReadyIsTable(dp, ch);
    ReadyFat(dp, ch);
    ChainedParts(dp, ch, k);
    AtParts(dp, ch, k);
    NextClusterOf(g, ch, k, dp.clust, dp.sect, dp.dir);
    dp.sect := dp.sect + 1;
    var clst := GetFat(dp.fs, dp.obj, dp.clust);
    if clst <= 1 {
      return INT_ERR, ch';
    }
    if clst == IO_ERROR {
      return DISK_ERR, ch';
    }
    ReadyAgain(dp, ch, f);
    KeptReady(dp, ch, u);
    if clst >= dp.fs.g.nFatent {
      res, clst, ch' := GrowTable(dp, ofs, ch, k, dp.sect - 1, u);
      if res != OK {
        return;
      }
    }
    dp.clust := clst;
    dp.sect := dp.fs.g.ToSector(clst);
  }

  // The part of it behind the end of the list.
  method GrowTable(dp: DIR, ofs: nat, ghost ch: seq<nat>, ghost k: nat, ghost sect: nat, ghost u: seq<Sector>)
    returns (res: FRESULT, clst: dword, ghost ch': seq<nat>)
    requires Ready(dp, ch) && !Static(dp.fs.g, dp.obj.sclust) && |ch| > 0 && dp.clust == ch[|ch| - 1]
    requires Stands(dp.fs.g, false, ch, k, SZDIRE * k, dp.clust, sect, dp.dir) && ClusterIndex(dp.fs.g, SZDIRE * k) == |ch| - 1
    requires ofs == SZDIRE * k + SZDIRE < MAX_DIR && ofs % SECTOR_SIZE == 0 && ofs / SECTOR_SIZE % dp.fs.g.csize == 0
    requires Extended(dp.fs.g, false, ch, ch, u, dp.fs.View())
    modifies dp.fs, dp.fs.win, dp.obj`stat, dp.obj`nCont, dp.obj`nFrag
    ensures res != DISK_ERR ==> Ready(dp, ch') && Extended(dp.fs.g, false, ch, ch', u, dp.fs.View())
    ensures res == OK ==> dp.fs.g.ToSector(clst) > 0 && Stands(dp.fs.g, false, ch', k + 1, ofs, clst, dp.fs.g.ToSector(clst), 0)
    ensures res == DENIED ==> ch' == ch && FreeClusters(dp.fs.g, dp.fs.chains) == {}
    ensures res == OK || res == DENIED || (res == DISK_ERR && dp.fs.faulted)
    ensures old(dp.fs.faulted) ==> dp.fs.faulted
  {
    hide FATFS.WindowOk, FATFS.ListsOk, FATFS.TableOk, FATFS.Valid, FatTable.Links, Mirrored, Overlaid, FatBytes, FatValue, FatAgrees, FreeClusters;
    hide Extended, Laid, ListOfTable, ClusterList, Geometry.Ok, Stands, Walks, ClusterIndex, Geometry.ToSector, InTable, Size, Ready, SameView;
    ghost var g, v := dp.fs.g, dp.fs.View();
    res, clst := StretchTable(dp, ch);
    ch' := if res == OK then ch + [clst] else ch;
    if res == DISK_ERR {
      return;
    }
    ExtendedTwice(g, false, ch, ch, ch', u, v, dp.fs.View());
    if res == OK {
      StretchedAt(g, ch, clst, k, ofs, dp.clust, sect, dp.dir, u, dp.fs.View());
    }
  }

  lemma AtParts(dp: DIR, ch: seq<nat>, k: nat)
    requires dp.fs.g.csize > 0 && At(dp, ch, k)
    ensures Stands(dp.fs.g, Static(dp.fs.g, dp.obj.sclust), ch, k, SZDIRE * k, dp.clust, dp.sect, dp.dir) && dp.dptr == SZDIRE * k
  {
  }

  lemma StandsAt(dp: DIR, ch: seq<nat>, k: nat)
    requires dp.fs.g.csize > 0
    requires Stands(dp.fs.g, Static(dp.fs.g, dp.obj.sclust), ch, k, dp.dptr, dp.clust, dp.sect, dp.dir)
    ensures At(dp, ch, k)
  {
  }

  lemma BeyondMax(g: Geometry, fixed: bool, ch: seq<nat>, k: nat)
    requires g.csize > 0 && g.fsType != EXFAT && SZDIRE * k >= MAX_DIR
    ensures !InTable(g, fixed, ch, k)
  {
  }

  lemma StretchedAt(g: Geometry, ch: seq<nat>, c: nat, k: nat, ofs: nat, clust: nat, sect: nat, dir: nat, u: seq<Sector>, w: seq<Sector>)
    requires Extended(g, false, ch, ch + [c], u, w) && g.csize > 0 && Stands(g, false, ch, k, SZDIRE * k, clust, sect, dir)
    requires ofs == SZDIRE * k + SZDIRE < MAX_DIR && ofs % SECTOR_SIZE == 0 && ofs / SECTOR_SIZE % g.csize == 0
    requires ClusterIndex(g, SZDIRE * k) == |ch| - 1
    ensures g.ToSector(c) > 0 && Stands(g, false, ch + [c], k + 1, ofs, c, g.ToSector(c), 0)
  {
    hide Table, Elsewhere, Stands, ClusterIndex, Geometry.Ok, ClusterList;
    StandsLonger(g, ch, c, k, SZDIRE * k, clust, sect, dir);
    NextClusterOf(g, ch + [c], k, clust, sect, dir);
  }

  // dir_next with stretching, on a sector boundary.
  method NextSectorStretch(dp: DIR, ofs: nat, ghost ch: seq<nat>, ghost k: nat) returns (res: FRESULT, ghost ch': seq<nat>)
    requires Ready(dp, ch) && dp.sect != 0 && At(dp, ch, k)
    requires ofs == SZDIRE * k + SZDIRE < MAX_DIR && ofs % SECTOR_SIZE == 0
    modifies dp`sect, dp`clust, dp.fs, dp.fs.win, dp.obj`stat, dp.obj`nCont, dp.obj`nFrag
    ensures res != DISK_ERR ==> Ready(dp, ch') && Extended(dp.fs.g, Static(dp.fs.g, dp.obj.sclust), ch, ch', old(dp.fs.View()), dp.fs.View())
    ensures res == OK ==> dp.sect != 0 && Stands(dp.fs.g, Static(dp.fs.g, dp.obj.sclust), ch', k + 1, ofs, dp.clust, dp.sect, 0)
    ensures res == NO_FILE || res == DENIED ==> ch' == ch && k + 1 >= Size(dp.fs.g, Static(dp.fs.g, dp.obj.sclust), ch)
    ensures res == DENIED ==> FreeClusters(dp.fs.g, dp.fs.chains) == {}
    ensures res == NO_FILE ==> Static(dp.fs.g, dp.obj.sclust)
    ensures res == OK || res == NO_FILE || res == DENIED || (res == DISK_ERR && dp.fs.faulted)
    ensures old(dp.fs.faulted) ==> dp.fs.faulted
  {
    hide FATFS.WindowOk, FATFS.ListsOk, FATFS.TableOk, FATFS.Valid, FatTable.Links, Mirrored, Overlaid, FatBytes, FatValue, FatAgrees, FreeClusters;
    hide Extended, Laid, ListOfTable, ClusterList, Geometry.Ok, Stands, Walks, ClusterIndex, Geometry.ToSector, InTable, Size;
    ghost var g, fixed, u := dp.fs.g, Static(dp.fs.g, dp.obj.sclust), dp.fs.View();
    res, ch' := OK, ch;
    ReadyIsTable(dp, ch);
    ChainedParts(dp, ch, k);
    InTableSize(g, fixed, ch, k + 1);
    if dp.clust == 0 {
      NextStatic(g, ch, k, dp.clust, dp.sect, dp.dir);
      dp.sect := dp.sect + 1;
      if ofs / SZDIRE >= dp.fs.g.nRootdir {
        dp.sect := 0;
        res := NO_FILE;
      }
      KeptReady(dp, ch, u);
    } else if ofs / SECTOR_SIZE % dp.fs.g.csize == 0 {
      res, ch' := NextClusterStretch(dp, ofs, ch, k);
    } else {
      NextSectorOf(g, ch, k, dp.clust, dp.sect, dp.dir);
      dp.sect := dp.sect + 1;
      KeptReady(dp, ch, u);
    }
  }

  /** dir_next with stretching: from entry k to entry k + 1. A table in clusters grows by a cluster of
      blank entries if need be; DENIED means that no cluster is free. */
  method DirNextStretch(dp: DIR, ghost ch: seq<nat>, ghost k: nat) returns (res: FRESULT, ghost ch': seq<nat>)
    requires Ready(dp, ch) && dp.sect != 0 && At(dp, ch, k)
    modifies dp`dptr, dp`clust, dp`sect, dp`dir, dp.fs, dp.fs.win, dp.obj`stat, dp.obj`nCont, dp.obj`nFrag
    ensures res != DISK_ERR ==> Ready(dp, ch') && Extended(dp.fs.g, Static(dp.fs.g, dp.obj.sclust), ch, ch', old(dp.fs.View()), dp.fs.View())
    ensures res == OK ==> dp.sect != 0 && At(dp, ch', k + 1)
    ensures res == NO_FILE || res == DENIED ==> ch' == ch && k + 1 >= Size(dp.fs.g, Static(dp.fs.g, dp.obj.sclust), ch)
    ensures res == DENIED ==> FreeClusters(dp.fs.g, dp.fs.chains) == {}
    ensures res == NO_FILE ==> Static(dp.fs.g, dp.obj.sclust) || k + 1 >= MAX_ENTRIES
    ensures res == OK || res == NO_FILE || res == DENIED || (res == DISK_ERR && dp.fs.faulted)
    ensures old(dp.fs.faulted) ==> dp.fs.faulted
  {
    hide FATFS.WindowOk, FATFS.ListsOk, FATFS.TableOk, FATFS.Valid, FatTable.Links, Mirrored, Overlaid, FatBytes, FatValue, FatAgrees, FreeClusters;
    hide Extended, Laid, ListOfTable, ClusterList, Geometry.Ok, Stands, Walks, ClusterIndex, Geometry.ToSector, InTable, Size, Ready, SameView;
    ghost var g, fixed, u := dp.fs.g, Static(dp.fs.g, dp.obj.sclust), dp.fs.View();
    ch' := ch;
    AtParts(dp, ch, k);
    InTableSize(g, fixed, ch, k + 1);
    ReadyFat(dp, ch);
    var ofs := dp.dptr + SZDIRE;
    if ofs >= MAX_DIR {
      dp.sect := 0;
    }
    if dp.sect == 0 {
      BeyondMax(g, fixed, ch, k + 1);
      KeptReady(dp, ch, u);
      return NO_FILE, ch';
    }
    if ofs % SECTOR_SIZE == 0 {
      res, ch' := NextSectorStretch(dp, ofs, ch, k);
      if res != OK {
        return;
      }
    } else {
      if fixed {
        FixedParts(g, ch);
      }
      NextInSector(g, fixed, ch, k, dp.clust, dp.sect, dp.dir);
      KeptReady(dp, ch, u);
    }
    dp.dptr := ofs;
    dp.dir := ofs % SECTOR_SIZE;
    StandsAt(dp, ch', k + 1);
    res := OK;
  }

  /** A deleted entry, or one behind the end mark. */
  predicate IsFree(e: Entry) {
    e[0] == DDEM || e[0] == 0
  }

  ghost predicate FreeBlock(t: seq<Entry>, a: nat, n: nat) {
    a + n <= |t| && forall i :: a <= i < a + n ==> IsFree(t[i])
  }

  ghost predicate NoBlock(t: seq<Entry>, n: nat) {
    forall b: nat :: !FreeBlock(t, b, n)
  }

  /** The first n free entries in a row. */
  ghost predicate FirstBlock(t: seq<Entry>, a: nat, n: nat) {
    FreeBlock(t, a, n) && forall b: nat :: b < a ==> !FreeBlock(t, b, n)
  }

  // After k entries: the last n are free, the one before them is not, and no block was found.
  ghost predicate Searching(t: seq<Entry>, k: nat, n: nat, nEnt: nat) {
    && n <= k <= |t| && n < nEnt && FreeBlock(t, k - n, n) && (n < k ==> !IsFree(t[k - n - 1]))
    && forall b: nat :: b + nEnt <= k ==> !FreeBlock(t, b, nEnt)
  }

  lemma SearchStep(t: seq<Entry>, k: nat, n: nat, nEnt: nat)
    requires Searching(t, k, n, nEnt) && k < |t|
    ensures !IsFree(t[k]) ==> Searching(t, k + 1, 0, nEnt)
    ensures IsFree(t[k]) && n + 1 < nEnt ==> Searching(t, k + 1, n + 1, nEnt)
    ensures IsFree(t[k]) && n + 1 == nEnt ==> FirstBlock(t, k - n, nEnt)
  {
    hide IsFree;
    forall b: nat | b + nEnt <= k + 1 && FreeBlock(t, b, nEnt) ensures b == k - n && n + 1 == nEnt {
      assert b + nEnt == k + 1;
      assert IsFree(t[k]);
    }
  }

  lemma SearchLonger(t: seq<Entry>, t': seq<Entry>, k: nat, n: nat, nEnt: nat)
    requires Searching(t, k, n, nEnt) && t <= t'
    ensures Searching(t', k, n, nEnt)
  {
    hide IsFree;
    forall b: nat | b + nEnt <= k ensures !FreeBlock(t', b, nEnt) {
      SameBlocks(t, t', b, nEnt);
    }
    SameBlocks(t, t', k - n, n);
  }

  lemma SameBlocks(t: seq<Entry>, t': seq<Entry>, a: nat, n: nat)
    requires t <= t' && a + n <= |t|
    ensures FreeBlock(t, a, n) <==> FreeBlock(t', a, n)
  {
    hide IsFree;
    assert forall i :: a <= i < a + n ==> t'[i] == t[i];
  }

  ghost function TableOf(dp: DIR, ch: seq<nat>): (t: seq<Entry>)
    requires Ready(dp, ch)
    reads dp.fs, dp.fs.win, dp.obj
    ensures |t| == Size(dp.fs.g, Static(dp.fs.g, dp.obj.sclust), ch)
  {
    Table(dp.fs.g, Static(dp.fs.g, dp.obj.sclust), ch, dp.fs.View())
  }

  // move_window to the sector of the entry.
  method LocateEntry(dp: DIR, ghost ch: seq<nat>, ghost k: nat) returns (res: FRESULT)
    requires Ready(dp, ch) && At(dp, ch, k)
    modifies dp.fs`disk, dp.fs`faulted, dp.fs`wflag, dp.fs`winsect, dp.fs.win
    ensures Ready(dp, ch) && Extended(dp.fs.g, Static(dp.fs.g, dp.obj.sclust), ch, ch, old(dp.fs.View()), dp.fs.View())
    ensures k < |TableOf(dp, ch)| && dp.sect < dp.fs.g.total && dp.dir + SZDIRE <= SECTOR_SIZE == dp.fs.win.Length
    ensures res == OK ==> dp.fs.winsect == dp.sect && dp.fs.win[dp.dir] == TableOf(dp, ch)[k][0]
    ensures res != OK ==> res == DISK_ERR && dp.fs.faulted
    ensures old(dp.fs.faulted) ==> dp.fs.faulted
  {
    hide FATFS.WindowOk, FATFS.ListsOk, FATFS.TableOk, FATFS.Valid, FatTable.Links, Mirrored, Overlaid, FatBytes, FatValue, FatAgrees;
    hide Extended, Laid, ListOfTable, ClusterList, Geometry.Ok, Stands, Walks, ClusterIndex, InTable, Ready, SameView, Table, Size;
    ghost var g, fixed, u, f := dp.fs.g, Static(dp.fs.g, dp.obj.sclust), dp.fs.View(), dp.fs.Links();
    ReadyIsTable(dp, ch);
    ReadyFat(dp, ch);
    AtParts(dp, ch, k);
    WindowParts(dp.fs);
    assert g.Meta(dp.fs.sys, dp.sect);
    res := dp.fs.MoveWindow(dp.sect);
    WindowParts(dp.fs);
    ReadyAgain(dp, ch, f);
    KeptReady(dp, ch, u);
    EntryThere(g, fixed, ch, dp.fs.View(), k, SZDIRE * k, dp.clust, dp.sect, dp.dir);
    assert res == OK ==> dp.fs.win[..][dp.dir] == dp.fs.win[dp.dir];
  }

  // Storing an entry in the window.
  method StoreEntry(dp: DIR, e: Entry, ghost ch: seq<nat>, ghost k: nat)
    requires Ready(dp, ch) && At(dp, ch, k) && dp.fs.winsect == dp.sect && dp.dir + SZDIRE <= SECTOR_SIZE
    modifies dp.fs`wflag, dp.fs.win
    ensures Ready(dp, ch) && k < |old(TableOf(dp, ch))| && TableOf(dp, ch) == old(TableOf(dp, ch))[k := e]
    ensures Elsewhere(dp.fs.g, Static(dp.fs.g, dp.obj.sclust), ch, old(dp.fs.View()), dp.fs.View())
  {
    hide FATFS.WindowOk, FATFS.ListsOk, FATFS.TableOk, FATFS.Valid, FatTable.Links, Mirrored, Overlaid, FatBytes, FatValue, FatAgrees;
    hide Extended, Laid, ListOfTable, ClusterList, Geometry.Ok, Stands, Walks, ClusterIndex, InTable, Ready, SameView, Table, Size;
    ghost var g, fixed, u, f := dp.fs.g, Static(dp.fs.g, dp.obj.sclust), dp.fs.View(), dp.fs.Links();
    ReadyIsTable(dp, ch);
    ReadyFat(dp, ch);
    AtParts(dp, ch, k);
    WindowParts(dp.fs);
    assert g.Meta(dp.fs.sys, dp.sect);
    EntryStored(g, fixed, ch, u, k, SZDIRE * k, dp.clust, dp.sect, dp.dir, e);
    StoredElsewhere(g, fixed, ch, u, k, SZDIRE * k, dp.clust, dp.sect, dp.dir, e);
    dp.fs.StoreWindow(dp.dir, e);
    ReadyAgain(dp, ch, f);
  }

  lemma StoredElsewhere(g: Geometry, fixed: bool, ch: seq<nat>, v: seq<Sector>, k: nat, dptr: nat, clust: nat, sect: nat, dir: nat, e: Entry)
    requires Laid(g, fixed, ch) && g.Ok() && g.csize > 0 && |v| == g.total && Stands(g, fixed, ch, k, dptr, clust, sect, dir)
    ensures sect < |v| && dir + SZDIRE <= SECTOR_SIZE
    ensures var w := v[sect := Splice(v[sect], dir, e)];
            Elsewhere(g, fixed, ch, v, w) && FatBytes(g, v) == FatBytes(g, w)
  {
    hide Stands, Laid, TableSector, Geometry.Ok;
    EntryThere(g, fixed, ch, v, k, dptr, clust, sect, dir);
    StandsThere(g, fixed, ch, k, dptr, clust, sect, dir);
    SectorPlace(g, fixed, ch, k / PER_SECTOR);
    var w := v[sect := Splice(v[sect], dir, e)];
    FatInside(g);
    SameRegion(v, w, g.fatbase, g.fsize);
    InRoot(g, ch, k / PER_SECTOR, fixed);
  }

  lemma InRoot(g: Geometry, ch: seq<nat>, q: nat, fixed: bool)
    requires Laid(g, fixed, ch) && g.csize > 0 && q < Sectors(g, fixed, ch)
    ensures OfTable(g, fixed, ch, TableSector(g, fixed, ch, q))
  {
    SectorPlace(g, fixed, ch, q);
  }

  /** The table cannot be made longer: the root table has its size, others end at 65536 entries or where no
      cluster is free. */
  ghost predicate Full(dp: DIR, ch: seq<nat>)
    requires Ready(dp, ch)
    reads dp.fs, dp.fs.win, dp.obj
  {
    Static(dp.fs.g, dp.obj.sclust) || |TableOf(dp, ch)| >= MAX_ENTRIES || FreeClusters(dp.fs.g, dp.fs.chains) == {}
  }

  // dir_sdi, and what it keeps.
  method SdiReady(dp: DIR, ofs: nat, ghost ch: seq<nat>) returns (res: FRESULT)
    requires Ready(dp, ch)
    modifies dp`dptr, dp`clust, dp`sect, dp`dir, dp.obj`stat, dp.fs`disk, dp.fs`faulted, dp.fs`wflag, dp.fs`winsect, dp.fs.win
    ensures Ready(dp, ch) && Extended(dp.fs.g, Static(dp.fs.g, dp.obj.sclust), ch, ch, old(dp.fs.View()), dp.fs.View())
    ensures TableOf(dp, ch) == old(TableOf(dp, ch))
    ensures res == OK ==> dp.sect != 0 && ofs % SZDIRE == 0 && At(dp, ch, ofs / SZDIRE)
    ensures res == INT_ERR ==> ofs % SZDIRE != 0 || ofs / SZDIRE >= |TableOf(dp, ch)|
    ensures res == OK || res == INT_ERR || (res == DISK_ERR && dp.fs.faulted)
    ensures old(dp.fs.faulted) ==> dp.fs.faulted
  {
    hide FATFS.WindowOk, FATFS.ListsOk, FATFS.TableOk, FATFS.Valid, FatTable.Links, Mirrored, Overlaid, FatBytes, FatValue, FatAgrees;
    hide Laid, ListOfTable, ClusterList, Geometry.Ok, Stands, Walks, ClusterIndex, InTable, Ready, SameView, Table, Size, Elsewhere;
    ghost var u, f := dp.fs.View(), dp.fs.Links();
    ReadyIsTable(dp, ch);
    ReadyFat(dp, ch);
    InTableSize(dp.fs.g, Static(dp.fs.g, dp.obj.sclust), ch, ofs / SZDIRE);
    res := DirSdi(dp, ofs, ch);
    ReadyAgain(dp, ch, f);
    KeptReady(dp, ch, u);
    SameSize(TableOf(dp, ch), old(TableOf(dp, ch)));
  }

  lemma SameSize(t: seq<Entry>, t': seq<Entry>)
    requires t' <= t && |t| == |t'|
    ensures t == t'
  {
  }

  lemma SearchBegins(t: seq<Entry>, nEnt: nat)
    requires nEnt > 0
    ensures Searching(t, 0, 0, nEnt)
  {
  }

  // The whole table has been searched.
  lemma SearchedAll(t: seq<Entry>, n: nat, nEnt: nat)
    requires Searching(t, |t|, n, nEnt)
    ensures NoBlock(t, nEnt)
  {
  }

  // dir_alloc, one entry.
  method AllocStep(dp: DIR, n0: nat, nEnt: nat, ghost ch0: seq<nat>, ghost ch: seq<nat>, ghost k: nat, ghost u: seq<Sector>)
    returns (res: FRESULT, n: nat, found: bool, ghost ch': seq<nat>)
    requires Ready(dp, ch) && dp.sect != 0 && At(dp, ch, k) && Searching(TableOf(dp, ch), k, n0, nEnt)
    requires Extended(dp.fs.g, Static(dp.fs.g, dp.obj.sclust), ch0, ch, u, dp.fs.View())
    modifies dp`dptr, dp`clust, dp`sect, dp`dir, dp.fs, dp.fs.win, dp.obj`stat, dp.obj`nCont, dp.obj`nFrag
    ensures res != DISK_ERR ==> Ready(dp, ch') && Extended(dp.fs.g, Static(dp.fs.g, dp.obj.sclust), ch0, ch', u, dp.fs.View())
    ensures found ==> res == OK && dp.sect != 0 && At(dp, ch', k) && k + 1 >= nEnt && FirstBlock(TableOf(dp, ch'), k + 1 - nEnt, nEnt)
    ensures res != DISK_ERR && !found ==> Searching(TableOf(dp, ch'), k + 1, n, nEnt)
    ensures res == OK && !found ==> dp.sect != 0 && At(dp, ch', k + 1)
    ensures k < MAX_ENTRIES
    ensures res == NO_FILE || res == DENIED ==> k + 1 == |TableOf(dp, ch')| && Full(dp, ch')
    ensures res == OK || res == NO_FILE || res == DENIED || (res == DISK_ERR && dp.fs.faulted)
    ensures old(dp.fs.faulted) ==> dp.fs.faulted
  {
    hide FATFS.WindowOk, FATFS.ListsOk, FATFS.TableOk, FATFS.Valid, FatTable.Links, Mirrored, Overlaid, FatBytes, FatValue, FatAgrees;
    hide Laid, ListOfTable, ClusterList, Geometry.Ok, Stands, Walks, ClusterIndex, InTable, Ready, SameView, Table, Size, Elsewhere;
    hide Searching, FirstBlock, FreeBlock, FreeClusters, At;
    ghost var g, fixed, v, t := dp.fs.g, Static(dp.fs.g, dp.obj.sclust), dp.fs.View(), TableOf(dp, ch);
    n, found, ch' := n0, false, ch;
    SearchParts(t, k, n0, nEnt);
    res := LocateEntry(dp, ch, k);
    if res != OK {
      return;
    }
    ghost var w := dp.fs.View();
    ExtendedTwice(g, fixed, ch0, ch, ch, u, v, w);
    SameSize(TableOf(dp, ch), t);
    SearchStep(t, k, n, nEnt);
    var b := dp.fs.win[dp.dir];
    if b == DDEM || b == 0 {
      n := n + 1;
      if n == nEnt {
        found := true;
        return;
      }
    } else {
      n := 0;
    }
    res, ch' := DirNextStretch(dp, ch, k);
    if res != DISK_ERR {
      ExtendedTwice(g, fixed, ch0, ch, ch', u, w, dp.fs.View());
      SearchLonger(t, TableOf(dp, ch'), k + 1, n, nEnt);
      SearchParts(TableOf(dp, ch'), k + 1, n, nEnt);
    }
  }

  lemma SearchParts(t: seq<Entry>, k: nat, n: nat, nEnt: nat)
    requires Searching(t, k, n, nEnt)
    ensures n <= k <= |t| && n < nEnt
  {
  }

  /** dir_alloc: the first block of nEnt free entries, for which the table is stretched if need be.
      DENIED only if even the stretched table has none. */
  method DirAlloc(dp: DIR, nEnt: nat, ghost ch: seq<nat>) returns (res: FRESULT, ghost ch': seq<nat>, ghost a: nat)
    requires Ready(dp, ch) && nEnt > 0
    modifies dp`dptr, dp`clust, dp`sect, dp`dir, dp.fs, dp.fs.win, dp.obj`stat, dp.obj`nCont, dp.obj`nFrag
    ensures res != DISK_ERR ==> Ready(dp, ch') && Extended(dp.fs.g, Static(dp.fs.g, dp.obj.sclust), ch, ch', old(dp.fs.View()), dp.fs.View())
    ensures res == OK ==> dp.sect != 0 && At(dp, ch', a + nEnt - 1) && FirstBlock(TableOf(dp, ch'), a, nEnt)
    ensures res == DENIED ==> Full(dp, ch') && NoBlock(TableOf(dp, ch'), nEnt)
    ensures res == INT_ERR ==> old(TableOf(dp, ch)) == []
    ensures res == OK || res == DENIED || res == INT_ERR || (res == DISK_ERR && dp.fs.faulted)
    ensures old(dp.fs.faulted) ==> dp.fs.faulted
  {
    hide FATFS.WindowOk, FATFS.ListsOk, FATFS.TableOk, FATFS.Valid, FatTable.Links, Mirrored, Overlaid, FatBytes, FatValue, FatAgrees;
    hide Extended, Laid, ListOfTable, ClusterList, Geometry.Ok, Stands, Walks, ClusterIndex, InTable, Ready, SameView, Table, Size, Searching, FreeBlock, FirstBlock, TableOf, NoBlock;
    a, ch' := 0, ch;
    ghost var g, fixed, u := dp.fs.g, Static(dp.fs.g, dp.obj.sclust), dp.fs.View();
    res := SdiReady(dp, 0, ch);
    if res != OK {
      return;
    }
    var n: nat := 0;
    ghost var k: nat := 0;
    SearchBegins(TableOf(dp, ch), nEnt);
    while res == OK
      invariant res == OK || res == NO_FILE || res == DENIED || (res == DISK_ERR && dp.fs.faulted)
      invariant res != DISK_ERR ==> Ready(dp, ch') && Extended(g, fixed, ch, ch', u, dp.fs.View()) && Searching(TableOf(dp, ch'), k, n, nEnt)
      invariant res == OK ==> dp.sect != 0 && At(dp, ch', k)
      invariant res == NO_FILE || res == DENIED ==> k == |TableOf(dp, ch')| && Full(dp, ch')
      invariant k <= MAX_ENTRIES && (old(dp.fs.faulted) ==> dp.fs.faulted)
      decreases MAX_ENTRIES - k, res == OK
    {
      var found;
      res, n, found, ch' := AllocStep(dp, n, nEnt, ch, ch', k, u);
      if found {
        a := k + 1 - nEnt;
        return;
      }
      if res != DISK_ERR {
        k := k + 1;
      }
    }
    if res == NO_FILE {
      res := DENIED;
    }
    if res == DENIED {
      SearchedAll(TableOf(dp, ch'), n, nEnt);
    }
  }

  lemma ElsewhereTwice(g: Geometry, fixed: bool, ch: seq<nat>, u: seq<Sector>, v: seq<Sector>, w: seq<Sector>)
    requires Elsewhere(g, fixed, ch, u, v) && Elsewhere(g, fixed, ch, v, w)
    ensures Elsewhere(g, fixed, ch, u, w)
  {
    hide OfTable;
  }

  lemma ExtendedElsewhere(g: Geometry, fixed: bool, ch: seq<nat>, u: seq<Sector>, v: seq<Sector>)
    requires Extended(g, fixed, ch, ch, u, v)
    ensures Elsewhere(g, fixed, ch, u, v) && Table(g, fixed, ch, u) == Table(g, fixed, ch, v)
  {
    hide OfTable, Table, Laid, Elsewhere;
    SameSize(Table(g, fixed, ch, v), Table(g, fixed, ch, u));
  }

  // dir_next without stretching, and what it keeps.
  method NextReady(dp: DIR, ghost ch: seq<nat>, ghost k: nat) returns (res: FRESULT)
    requires Ready(dp, ch) && dp.sect != 0 && At(dp, ch, k)
    modifies dp`dptr, dp`clust, dp`sect, dp`dir, dp.fs`disk, dp.fs`faulted, dp.fs`wflag, dp.fs`winsect, dp.fs.win
    ensures Ready(dp, ch) && TableOf(dp, ch) == old(TableOf(dp, ch))
    ensures Elsewhere(dp.fs.g, Static(dp.fs.g, dp.obj.sclust), ch, old(dp.fs.View()), dp.fs.View())
    ensures res == OK ==> dp.sect != 0 && At(dp, ch, k + 1)
    ensures res == NO_FILE ==> k + 1 >= |TableOf(dp, ch)|
    ensures res == OK || res == NO_FILE || (res == DISK_ERR && dp.fs.faulted)
    ensures old(dp.fs.faulted) ==> dp.fs.faulted
  {
    hide FATFS.WindowOk, FATFS.ListsOk, FATFS.TableOk, FATFS.Valid, FatTable.Links, Mirrored, Overlaid, FatBytes, FatValue, FatAgrees;
    hide Laid, ListOfTable, ClusterList, Geometry.Ok, Stands, Walks, ClusterIndex, InTable, Ready, SameView, Table, Size, Elsewhere, Extended;
    ghost var u, f := dp.fs.View(), dp.fs.Links();
    ReadyIsTable(dp, ch);
    ReadyFat(dp, ch);
    InTableSize(dp.fs.g, Static(dp.fs.g, dp.obj.sclust), ch, k + 1);
    res := DirNext(dp, ch, k);
    ReadyAgain(dp, ch, f);
    KeptReady(dp, ch, u);
    ExtendedElsewhere(dp.fs.g, Static(dp.fs.g, dp.obj.sclust), ch, u, dp.fs.View());
  }

  // The first j parts of the name are in the table from entry a on, all other entries are as before.
  ghost predicate Storing(t0: seq<Entry>, t: seq<Entry>, a: nat, name: seq<word>, sum: byte, j: nat) {
    && |t| == |t0| && a + j <= |t| && j <= Parts(name)
    && (forall k :: 0 <= k < |t| && !(a <= k < a + j) ==> t[k] == t0[k])
    && forall i :: 0 <= i < j ==> PartAt(t, a, name, sum, i)
  }

  lemma StoringStep(t0: seq<Entry>, t: seq<Entry>, a: nat, name: seq<word>, sum: byte, j: nat, e: Entry)
    requires Storing(t0, t, a, name, sum, j) && a + j < |t| && j < Parts(name) && IsPart(e, name, Parts(name) - j, sum)
    ensures Storing(t0, t[a + j := e], a, name, sum, j + 1)
  {
    hide IsPart;
    var t' := t[a + j := e];
    forall i | 0 <= i < j + 1 ensures PartAt(t', a, name, sum, i) {
      if i < j {
        assert PartAt(t, a, name, sum, i);
      }
    }
  }

  // dir_register, the loop that stores the long name.
  method StoreLong(dp: DIR, lfnbuf: seq<word>, nEnt0: nat, sum: byte, ghost name: seq<word>, ghost ch: seq<nat>, ghost a: nat) returns (res: FRESULT)
    requires Ready(dp, ch) && dp.sect != 0 && At(dp, ch, a) && nEnt0 == Parts(name) && a + nEnt0 < |TableOf(dp, ch)|
    requires |lfnbuf| == MAX_LFN + 1 && IsName(name) && 0 < |name| <= MAX_LFN && lfnbuf[..|name|] == name && lfnbuf[|name|] == 0
    modifies dp`dptr, dp`clust, dp`sect, dp`dir, dp.fs`disk, dp.fs`faulted, dp.fs`wflag, dp.fs`winsect, dp.fs.win
    ensures Ready(dp, ch) && Elsewhere(dp.fs.g, Static(dp.fs.g, dp.obj.sclust), ch, old(dp.fs.View()), dp.fs.View())
    ensures res == OK ==> dp.sect != 0 && At(dp, ch, a + nEnt0) && Storing(old(TableOf(dp, ch)), TableOf(dp, ch), a, name, sum, nEnt0)
    ensures res == OK || (res == DISK_ERR && dp.fs.faulted)
    ensures old(dp.fs.faulted) ==> dp.fs.faulted
  {
    hide FATFS.WindowOk, FATFS.ListsOk, FATFS.TableOk, FATFS.Valid, FatTable.Links, Mirrored, Overlaid, FatBytes, FatValue, FatAgrees;
    hide Laid, ListOfTable, ClusterList, Geometry.Ok, Stands, Walks, ClusterIndex, InTable, Ready, SameView, Table, Size, Elsewhere, Extended;
    hide Storing, IsPart, IsName, TableOf, At;
    ghost var g, fixed, u, t0 := dp.fs.g, Static(dp.fs.g, dp.obj.sclust), dp.fs.View(), TableOf(dp, ch);
    var nEnt: nat := nEnt0;
    StoringBegins(t0, a, name, sum);
    ElsewhereRefl(g, fixed, ch, u);
    while true
      invariant 0 < nEnt <= nEnt0 && Ready(dp, ch) && Elsewhere(g, fixed, ch, u, dp.fs.View()) && (old(dp.fs.faulted) ==> dp.fs.faulted)
      invariant dp.sect != 0 && At(dp, ch, a + (nEnt0 - nEnt)) && Storing(t0, TableOf(dp, ch), a, name, sum, nEnt0 - nEnt)
      decreases nEnt
    {
      ghost var j, v := nEnt0 - nEnt, dp.fs.View();
      res := StorePart(dp, lfnbuf, nEnt, sum, name, ch, a, j, t0);
      ElsewhereTwice(g, fixed, ch, u, v, dp.fs.View());
      if res != OK {
        return;
      }
      nEnt := nEnt - 1;
      if nEnt == 0 {
        break;
      }
    }
  }

  lemma StoringBegins(t: seq<Entry>, a: nat, name: seq<word>, sum: byte)
    requires a <= |t|
    ensures Storing(t, t, a, name, sum, 0)
  {
  }

  lemma ElsewhereRefl(g: Geometry, fixed: bool, ch: seq<nat>, u: seq<Sector>)
    ensures Elsewhere(g, fixed, ch, u, u)
  {
  }

  // One round of it.
  method StorePart(dp: DIR, lfnbuf: seq<word>, nEnt: nat, sum: byte, ghost name: seq<word>, ghost ch: seq<nat>, ghost a: nat, ghost j: nat,
                   ghost t0: seq<Entry>) returns (res: FRESULT)
    requires Ready(dp, ch) && dp.sect != 0 && At(dp, ch, a + j) && 0 < nEnt && nEnt + j == Parts(name) && a + Parts(name) < |t0|
    requires Storing(t0, TableOf(dp, ch), a, name, sum, j)
    requires |lfnbuf| == MAX_LFN + 1 && IsName(name) && 0 < |name| <= MAX_LFN && lfnbuf[..|name|] == name && lfnbuf[|name|] == 0
    modifies dp`dptr, dp`clust, dp`sect, dp`dir, dp.fs`disk, dp.fs`faulted, dp.fs`wflag, dp.fs`winsect, dp.fs.win
    ensures Ready(dp, ch) && Elsewhere(dp.fs.g, Static(dp.fs.g, dp.obj.sclust), ch, old(dp.fs.View()), dp.fs.View())
    ensures res == OK ==> dp.sect != 0 && At(dp, ch, a + j + 1) && Storing(t0, TableOf(dp, ch), a, name, sum, j + 1)
    ensures res == OK || (res == DISK_ERR && dp.fs.faulted)
    ensures old(dp.fs.faulted) ==> dp.fs.faulted
  {
    hide FATFS.WindowOk, FATFS.ListsOk, FATFS.TableOk, FATFS.Valid, FatTable.Links, Mirrored, Overlaid, FatBytes, FatValue, FatAgrees;
    hide Laid, ListOfTable, ClusterList, Geometry.Ok, Stands, Walks, ClusterIndex, InTable, Ready, SameView, Table, Size, Elsewhere, Extended;
    hide IsPart, IsName, At;
    ghost var g, fixed, u, t := dp.fs.g, Static(dp.fs.g, dp.obj.sclust), dp.fs.View(), TableOf(dp, ch);
    PartsBound(name, nEnt);
    res := LocateEntry(dp, ch, a + j);
    ghost var v := dp.fs.View();
    ExtendedElsewhere(g, fixed, ch, u, v);
    if res != OK {
      return;
    }
    NameIsText(name);
    var e := PutLfn(lfnbuf, dp.fs.win[dp.dir..dp.dir + SZDIRE], nEnt, sum, name);
    StoreEntry(dp, e, ch, a + j);
    ElsewhereTwice(g, fixed, ch, u, v, dp.fs.View());
    StoringStep(t0, t, a, name, sum, j, e);
    ghost var w := dp.fs.View();
    hide Storing;
    res := NextReady(dp, ch, a + j);
    ElsewhereTwice(g, fixed, ch, u, w, dp.fs.View());
  }

  /** What dir_find reports about a table: es are the entries it has looked at. */
  ghost predicate Found(up: word -> word, lfnbuf: seq<word>, fn: seq<byte>, noLfn: bool, loss: bool, t: seq<Entry>, es: seq<Entry>, res: FRESULT) {
    && es <= t
    && (forall j :: 0 <= j < |es| - 1 ==> es[j][0] != 0 && !Selected(up, lfnbuf, fn, noLfn, loss, es, j))
    && (res == OK ==> |es| > 0 && es[|es| - 1][0] != 0 && Selected(up, lfnbuf, fn, noLfn, loss, es, |es| - 1))
    && (res == NO_FILE ==> |es| > 0 && (es[|es| - 1][0] == 0 || (!Selected(up, lfnbuf, fn, noLfn, loss, es, |es| - 1) && es == t)))
    && (res == INT_ERR ==> t == [])
  }

  // dir_find, and what it keeps.
  method FindReady(dp: DIR, up: word -> word, lfnbuf: seq<word>, fn: seq<byte>, noLfn: bool, loss: bool, ghost ch: seq<nat>)
    returns (res: FRESULT, ghost es: seq<Entry>)
    requires Ready(dp, ch) && |lfnbuf| == MAX_LFN + 1 && IsUpper(up) && |fn| == 11
    modifies dp`dptr, dp`clust, dp`sect, dp`dir, dp.obj`stat, dp.fs`disk, dp.fs`faulted, dp.fs`wflag, dp.fs`winsect, dp.fs.win
    ensures Ready(dp, ch) && TableOf(dp, ch) == old(TableOf(dp, ch))
    ensures Elsewhere(dp.fs.g, Static(dp.fs.g, dp.obj.sclust), ch, old(dp.fs.View()), dp.fs.View())
    ensures Found(up, lfnbuf, fn, noLfn, loss, TableOf(dp, ch), es, res)
    ensures res == OK ==> At(dp, ch, |es| - 1)
    ensures res == OK || res == NO_FILE || res == INT_ERR || (res == DISK_ERR && dp.fs.faulted)
  {
    hide FATFS.WindowOk, FATFS.ListsOk, FATFS.TableOk, FATFS.Valid, FatTable.Links, Mirrored, Overlaid, FatBytes, FatValue, FatAgrees;
    hide Laid, ListOfTable, ClusterList, Geometry.Ok, Stands, Walks, ClusterIndex, InTable, Ready, SameView, Table, Size, Elsewhere, Extended, Selected, AreEntries;
    ghost var g, fixed, u, f := dp.fs.g, Static(dp.fs.g, dp.obj.sclust), dp.fs.View(), dp.fs.Links();
    ReadyIsTable(dp, ch);
    ReadyFat(dp, ch);
    res, es := DirFind.DirFind(dp, up, lfnbuf, fn, noLfn, loss, ch);
    ReadyAgain(dp, ch, f);
    KeptReady(dp, ch, u);
    ExtendedElsewhere(g, fixed, ch, u, dp.fs.View());
    EntriesAreTable(g, fixed, ch, u, es);
    InTableSize(g, fixed, ch, |es|);
    InTableSize(g, fixed, ch, 0);
  }

  /** No short entry in front of the end mark has the name. */
  ghost predicate NotTaken(t: seq<Entry>, fn: seq<byte>) {
    forall j :: 0 <= j < |t| && IsShort(t[j]) && t[j][..11] == fn ==> !Live(t, j)
  }

  // There is no end mark up to entry j.
  ghost predicate Live(t: seq<Entry>, j: nat)
    requires j < |t|
  {
    forall i :: 0 <= i <= j ==> t[i][0] != 0
  }

  lemma NoFileNotTaken(up: word -> word, lfnbuf: seq<word>, fn: seq<byte>, t: seq<Entry>, es: seq<Entry>)
    requires Found(up, lfnbuf, fn, true, false, t, es, NO_FILE)
    ensures NotTaken(t, fn)
  {
    hide IsShort, LongMatch;
    forall j | 0 <= j < |t| && IsShort(t[j]) && t[j][..11] == fn ensures !Live(t, j) {
      if j < |es| {
        assert es[j] == t[j];
        assert Selected(up, lfnbuf, fn, true, false, es, j);
      }
      assert es[|es| - 1] == t[|es| - 1];
    }
  }

  lemma FoundTaken(up: word -> word, lfnbuf: seq<word>, fn: seq<byte>, t: seq<Entry>, es: seq<Entry>)
    requires Found(up, lfnbuf, fn, true, false, t, es, OK)
    ensures !NotTaken(t, fn)
  {
    hide IsShort, LongMatch;
    var j := |es| - 1;
    assert t[j] == es[j] && forall i :: 0 <= i <= j ==> t[i] == es[i];
    assert Live(t, j);
  }

  lemma EmptyFound(up: word -> word, lfnbuf: seq<word>, fn: seq<byte>, t: seq<Entry>, es: seq<Entry>, res: FRESULT)
    requires Found(up, lfnbuf, fn, true, false, t, es, res)
    ensures res == INT_ERR ==> t == []
  {
    hide Selected;
  }

  /** The numbered names below m all stand in the table already. */
  ghost predicate AllTaken(t: seq<Entry>, gen: nat -> seq<byte>, m: nat) {
    forall n :: 1 <= n < m ==> !NotTaken(t, gen(n))
  }

  // dir_register, the loop that looks for a short name that is not taken.
  method NumberedName(dp: DIR, up: word -> word, lfnbuf: seq<word>, gen: nat -> seq<byte>, ghost ch: seq<nat>) returns (res: FRESULT, fn: seq<byte>)
    requires Ready(dp, ch) && |lfnbuf| == MAX_LFN + 1 && IsUpper(up) && forall n :: |gen(n)| == 11
    modifies dp`dptr, dp`clust, dp`sect, dp`dir, dp.obj`stat, dp.fs`disk, dp.fs`faulted, dp.fs`wflag, dp.fs`winsect, dp.fs.win
    ensures Ready(dp, ch) && TableOf(dp, ch) == old(TableOf(dp, ch))
    ensures Elsewhere(dp.fs.g, Static(dp.fs.g, dp.obj.sclust), ch, old(dp.fs.View()), dp.fs.View())
    ensures res == NO_FILE ==> NotTaken(TableOf(dp, ch), fn) && exists n :: 1 <= n < 100 && fn == gen(n)
    ensures res == DENIED ==> AllTaken(TableOf(dp, ch), gen, 100)
    ensures res == INT_ERR ==> TableOf(dp, ch) == []
    ensures res == NO_FILE || res == DENIED || res == INT_ERR || (res == DISK_ERR && dp.fs.faulted)
  {
    hide FATFS.WindowOk, FATFS.ListsOk, FATFS.TableOk, FATFS.Valid, Laid, ListOfTable, At, Ready, Table, Size, Elsewhere, Found, NotTaken, TableOf, IsUpper;
    ghost var u := dp.fs.View();
    ElsewhereRefl(dp.fs.g, Static(dp.fs.g, dp.obj.sclust), ch, u);
    fn := [];
    var n: nat := 1;
    res := OK;
    while n < 100
      invariant n <= 100 && Ready(dp, ch) && TableOf(dp, ch) == old(TableOf(dp, ch)) && res == OK
      invariant AllTaken(TableOf(dp, ch), gen, n)
      invariant Elsewhere(dp.fs.g, Static(dp.fs.g, dp.obj.sclust), ch, u, dp.fs.View())
    {
      ghost var v := dp.fs.View();
      fn := gen(n);
      ghost var es;
      res, es := FindReady(dp, up, lfnbuf, fn, true, false, ch);
      ElsewhereTwice(dp.fs.g, Static(dp.fs.g, dp.obj.sclust), ch, u, v, dp.fs.View());
      if res != OK {
        if res == NO_FILE {
          NoFileNotTaken(up, lfnbuf, fn, TableOf(dp, ch), es);
        }
        EmptyFound(up, lfnbuf, fn, TableOf(dp, ch), es, res);
        return;
      }
      FoundTaken(up, lfnbuf, fn, TableOf(dp, ch), es);
      n := n + 1;
    }
    res := DENIED;
  }

  /** The short entry of a new object: its name, the case flags, zeros. */
  function ShortEntry(fn: seq<byte>, nt: byte): (e: Entry)
    requires |fn| == 11
    ensures e[..11] == fn && e[0] == fn[0] && e[11] == 0 && e[12] == nt
  {
    fn + [0, nt] + seq(19, _ => 0)
  }

  lemma ShortIsShort(fn: seq<byte>, nt: byte)
    requires |fn| == 11 && fn[0] != DDEM
    ensures IsShort(ShortEntry(fn, nt))
  {
  }

  /** Only the n entries from a on have changed, and the last of them is the short entry. */
  ghost predicate Replaced(t1: seq<Entry>, t: seq<Entry>, a: nat, n: nat, fn: seq<byte>, nt: byte)
    requires |fn| == 11
  {
    && n >= 1 && |t| == |t1| && a + n <= |t| && t[a + n - 1] == ShortEntry(fn, nt)
    && forall k :: 0 <= k < |t| && !(a <= k < a + n) ==> t[k] == t1[k]
  }

  // t with blank entries up to m.
  function Lengthened(t: seq<Entry>, m: nat): (r: seq<Entry>)
    requires |t| <= m
    ensures |r| == m
  {
    t + seq(m - |t|, _ => Blank())
  }

  /** The table t after storing a name in it that was t0 before: in t0, lengthened by blank entries if
      need be, the first n free entries in a row have been replaced, the last by the short entry. */
  ghost predicate Registered(t0: seq<Entry>, t: seq<Entry>, a: nat, n: nat, fn: seq<byte>, nt: byte)
    requires |fn| == 11
  {
    |t0| <= |t| && FirstBlock(Lengthened(t0, |t|), a, n) && Replaced(Lengthened(t0, |t|), t, a, n, fn, nt)
  }

  // From the table of before over the stretched table t1 to the one with the name.
  lemma RegisteredFrom(t0: seq<Entry>, t1: seq<Entry>, t: seq<Entry>, a: nat, n: nat, fn: seq<byte>, nt: byte)
    requires t0 <= t1 && (forall k :: |t0| <= k < |t1| ==> t1[k] == Blank())
    requires FirstBlock(t1, a, n) && |fn| == 11 && Replaced(t1, t, a, n, fn, nt)
    ensures Registered(t0, t, a, n, fn, nt)
  {
    hide FirstBlock;
    assert t1 == Lengthened(t0, |t1|);
  }

  lemma StoredWith(t0: seq<Entry>, t2: seq<Entry>, a: nat, name: seq<word>, fn: seq<byte>, nt: byte, sum: byte)
    requires |fn| == 11 && fn[0] != DDEM && sum == Sum(fn) && Storing(t0, t2, a, name, sum, Parts(name)) && a + Parts(name) < |t2|
    ensures DirFind.Stored(t2[a + Parts(name) := ShortEntry(fn, nt)], a, name, sum)
  {
    hide IsPart, Sum, IsShort;
    ShortIsShort(fn, nt);
    var t := t2[a + Parts(name) := ShortEntry(fn, nt)];
    forall i | 0 <= i < Parts(name) ensures PartAt(t, a, name, sum, i) {
      assert PartAt(t2, a, name, sum, i);
      assert t[a + i] == t2[a + i];
    }
  }

  // dir_register, setting the short entry.
  method StoreShort(dp: DIR, fn: seq<byte>, nt: byte, ghost ch: seq<nat>, ghost k: nat) returns (res: FRESULT)
    requires Ready(dp, ch) && At(dp, ch, k) && |fn| == 11
    modifies dp.fs`disk, dp.fs`faulted, dp.fs`wflag, dp.fs`winsect, dp.fs.win
    ensures Ready(dp, ch) && Elsewhere(dp.fs.g, Static(dp.fs.g, dp.obj.sclust), ch, old(dp.fs.View()), dp.fs.View())
    ensures res == OK ==> k < |old(TableOf(dp, ch))| && TableOf(dp, ch) == old(TableOf(dp, ch))[k := ShortEntry(fn, nt)]
    ensures res == OK || (res == DISK_ERR && dp.fs.faulted)
  {
    hide FATFS.WindowOk, FATFS.ListsOk, FATFS.TableOk, FATFS.Valid, Laid, ListOfTable, At, Ready, Table, Size, Elsewhere, Extended;
    ghost var g, fixed, u := dp.fs.g, Static(dp.fs.g, dp.obj.sclust), dp.fs.View();
    res := LocateEntry(dp, ch, k);
    ghost var v := dp.fs.View();
    ExtendedElsewhere(g, fixed, ch, u, v);
    if res == OK {
      StoreEntry(dp, ShortEntry(fn, nt), ch, k);
      ElsewhereTwice(g, fixed, ch, u, v, dp.fs.View());
    }
  }

  // dir_register, the entries in the block that was allocated; the object stands at its last entry.
  method StoreEntries(dp: DIR, lfnbuf: seq<word>, fn: seq<byte>, nt: byte, nEnt: nat, ghost name: seq<word>, ghost ch: seq<nat>, ghost a: nat)
    returns (res: FRESULT)
    requires Ready(dp, ch) && dp.sect != 0 && nEnt >= 1 && At(dp, ch, a + nEnt - 1) && a + nEnt <= |TableOf(dp, ch)|
    requires |fn| == 11 && fn[0] != DDEM && (nEnt > 1 ==> nEnt == Parts(name) + 1)
    requires |lfnbuf| == MAX_LFN + 1 && IsName(name) && 0 < |name| <= MAX_LFN && lfnbuf[..|name|] == name && lfnbuf[|name|] == 0
    modifies dp`dptr, dp`clust, dp`sect, dp`dir, dp.obj`stat, dp.fs`disk, dp.fs`faulted, dp.fs`wflag, dp.fs`winsect, dp.fs.win
    ensures Ready(dp, ch) && Elsewhere(dp.fs.g, Static(dp.fs.g, dp.obj.sclust), ch, old(dp.fs.View()), dp.fs.View())
    ensures res == OK ==> Replaced(old(TableOf(dp, ch)), TableOf(dp, ch), a, nEnt, fn, nt)
    ensures res == OK && nEnt > 1 ==> DirFind.Stored(TableOf(dp, ch), a, name, Sum(fn))
    ensures res == OK || (res == DISK_ERR && dp.fs.faulted)
  {
    hide FATFS.WindowOk, FATFS.ListsOk, FATFS.TableOk, FATFS.Valid, Laid, ListOfTable, Ready, Table, Size, Elsewhere, Extended, Stands;
    hide Storing, DirFind.Stored, IsName, TableOf, Sum, DirFind.ByNumber;
    ghost var g, fixed, u, t1 := dp.fs.g, Static(dp.fs.g, dp.obj.sclust), dp.fs.View(), TableOf(dp, ch);
    res := OK;
    var n := nEnt - 1;
    ghost var t2 := t1;
    if n > 0 {
      AtParts(dp, ch, a + n);
      res := SdiReady(dp, dp.dptr - n * SZDIRE, ch);
      ghost var v := dp.fs.View();
      ExtendedElsewhere(g, fixed, ch, u, v);
      if res == OK {
        var sum := SumSfn(fn);
        assert fn[..11] == fn;
        res := StoreLong(dp, lfnbuf, n, sum, name, ch, a);
        ElsewhereTwice(g, fixed, ch, u, v, dp.fs.View());
        t2 := TableOf(dp, ch);
      }
    } else {
      ElsewhereRefl(g, fixed, ch, u);
    }
    if res == OK {
      ghost var w := dp.fs.View();
      res := StoreShort(dp, fn, nt, ch, a + n);
      ElsewhereTwice(g, fixed, ch, u, w, dp.fs.View());
      if res == OK {
        if n > 0 {
          StoringRest(t1, t2, a, name, Sum(fn), n);
          StoredWith(t1, t2, a, name, fn, nt, Sum(fn));
        }
      }
    }
  }

  lemma StoringRest(t1: seq<Entry>, t2: seq<Entry>, a: nat, name: seq<word>, sum: byte, n: nat)
    requires Storing(t1, t2, a, name, sum, n)
    ensures |t2| == |t1| && forall k :: 0 <= k < |t2| && !(a <= k < a + n) ==> t2[k] == t1[k]
  {
  }

  // The length of the name in the buffer.
  method NameLength(lfnbuf: seq<word>, ghost name: seq<word>) returns (len: nat)
    requires |lfnbuf| == MAX_LFN + 1 && IsName(name) && |name| <= MAX_LFN && lfnbuf[..|name|] == name && lfnbuf[|name|] == 0
    ensures len == |name|
  {
    len := 0;
    assert forall i :: 0 <= i < |name| ==> lfnbuf[i] == name[i] != 0 by {
      assert forall i :: 0 <= i < |name| ==> lfnbuf[i] == lfnbuf[..|name|][i];
    }
    while lfnbuf[len] != 0
      invariant len <= |name|
      decreases |name| - len
    {
      len := len + 1;
    }
  }

  /** dir_register on FAT12/16/32. bad stands for NS_DOT or NS_NONAME, loss for NS_LOSS, lfn for NS_LFN;
      gen is gen_numname for the given name. The entries of the name are stored in the first free
      block, no other entry of the table changes, and nothing outside the table but the FATs; a
      numbered short name is one that the table did not have. */
  method DirRegister(dp: DIR, up: word -> word, lfnbuf: seq<word>, fn0: seq<byte>, bad: bool, loss: bool, lfn: bool, nt: byte,
                     gen: nat -> seq<byte>, ghost name: seq<word>, ghost ch: seq<nat>)
    returns (res: FRESULT, fn: seq<byte>, ghost ch': seq<nat>, ghost a: nat)
    requires Ready(dp, ch) && IsUpper(up) && |fn0| == 11 && fn0[0] != DDEM && forall n :: |gen(n)| == 11 && gen(n)[0] != DDEM
    requires |lfnbuf| == MAX_LFN + 1 && (bad || (IsName(name) && 0 < |name| <= MAX_LFN && lfnbuf[..|name|] == name && lfnbuf[|name|] == 0))
    modifies dp`dptr, dp`clust, dp`sect, dp`dir, dp.fs, dp.fs.win, dp.obj`stat, dp.obj`nCont, dp.obj`nFrag
    ensures res != DISK_ERR ==> Ready(dp, ch') && Elsewhere(dp.fs.g, Static(dp.fs.g, dp.obj.sclust), ch', old(dp.fs.View()), dp.fs.View())
    ensures res == OK ==> |fn| == 11 && Registered(old(TableOf(dp, ch)), TableOf(dp, ch'), a, if lfn then Parts(name) + 1 else 1, fn, nt)
    ensures res == OK && lfn ==> DirFind.Stored(TableOf(dp, ch'), a, name, Sum(fn))
    ensures res == OK && loss ==> NotTaken(old(TableOf(dp, ch)), fn)
    ensures res == OK && !loss ==> fn == fn0
    ensures res == INVALID_NAME <==> bad
    ensures res == DENIED ==> (loss && AllTaken(old(TableOf(dp, ch)), gen, 100))
                              || (Full(dp, ch') && NoBlock(TableOf(dp, ch'), if lfn then Parts(name) + 1 else 1))
    ensures res == INT_ERR ==> old(TableOf(dp, ch)) == []
    ensures res == OK || res == INVALID_NAME || res == DENIED || res == INT_ERR || (res == DISK_ERR && dp.fs.faulted)
  {
    hide FATFS.WindowOk, FATFS.ListsOk, FATFS.TableOk, FATFS.Valid, Laid, ListOfTable, Ready, Table, Size, Elsewhere, Extended, Stands, At;
    hide Storing, DirFind.Stored, IsName, TableOf, Sum, DirFind.ByNumber, Registered, Replaced, NotTaken, FirstBlock, FreeBlock, IsUpper;
    hide Full, NoBlock, AllTaken;
    ghost var g, fixed, u, t0 := dp.fs.g, Static(dp.fs.g, dp.obj.sclust), dp.fs.View(), TableOf(dp, ch);
    res, fn, ch', a := INVALID_NAME, fn0, ch, 0;
    ElsewhereRefl(g, fixed, ch, u);
    if bad {
      return;
    }
    var len := NameLength(lfnbuf, name);
    if loss {
      res, fn := NumberedName(dp, up, lfnbuf, gen, ch);
      if res != NO_FILE {
        return;
      }
    }
    ghost var v := dp.fs.View();
    TableIs(dp, ch);
    var nEnt: nat := if lfn then (len + 12) / 13 + 1 else 1;
    res, ch', a := DirAlloc(dp, nEnt, ch);
    if res != DISK_ERR {
      AllocElsewhere(g, fixed, ch, ch', u, v, dp.fs.View());
    }
    if res == OK {
      ghost var w, t1 := dp.fs.View(), TableOf(dp, ch');
      TableExtended(dp, ch, ch', v, t0);
      BlockParts(t1, a, nEnt);
      res := StoreEntries(dp, lfnbuf, fn, nt, nEnt, name, ch', a);
      ElsewhereTwice(g, fixed, ch', u, w, dp.fs.View());
      if res == OK {
        RegisteredFrom(t0, t1, TableOf(dp, ch'), a, nEnt, fn, nt);
      }
    }
  }

  lemma AllocElsewhere(g: Geometry, fixed: bool, ch: seq<nat>, ch': seq<nat>, u: seq<Sector>, v: seq<Sector>, w: seq<Sector>)
    requires Elsewhere(g, fixed, ch, u, v) && Extended(g, fixed, ch, ch', v, w)
    ensures Elsewhere(g, fixed, ch', u, w)
  {
    hide OfTable, Table, Laid;
    forall s | 0 <= s < |u| && !g.InTables(s) && !OfTable(g, fixed, ch', s) ensures u[s] == w[s] {
      if OfTable(g, fixed, ch, s) {
        ListLonger(g, fixed, ch, ch', s);
      }
    }
  }

  lemma TableIs(dp: DIR, ch: seq<nat>)
    requires Ready(dp, ch)
    ensures TableOf(dp, ch) == Table(dp.fs.g, Static(dp.fs.g, dp.obj.sclust), ch, dp.fs.View())
  {
  }

  lemma TableExtended(dp: DIR, ch: seq<nat>, ch': seq<nat>, v: seq<Sector>, t0: seq<Entry>)
    requires Ready(dp, ch') && Extended(dp.fs.g, Static(dp.fs.g, dp.obj.sclust), ch, ch', v, dp.fs.View())
    requires t0 == Table(dp.fs.g, Static(dp.fs.g, dp.obj.sclust), ch, v)
    ensures t0 <= TableOf(dp, ch') && forall k :: |t0| <= k < |TableOf(dp, ch')| ==> TableOf(dp, ch')[k] == Blank()
  {
    hide Table, Ready;
  }

  lemma BlockParts(t: seq<Entry>, a: nat, n: nat)
    requires FirstBlock(t, a, n)
    ensures a + n <= |t|
  {
  }

  /** Behind the end mark there is nothing. */
  ghost predicate EndMarked(t: seq<Entry>) {
    forall i, j :: 0 <= i <= j < |t| && t[i][0] == 0 ==> t[j][0] == 0
  }

  // The first free block does not lie behind the end mark.
  lemma NoMarkBefore(t0: seq<Entry>, t: seq<Entry>, a: nat, n: nat, fn: seq<byte>, nt: byte, i: nat)
    requires |fn| == 11 && Registered(t0, t, a, n, fn, nt) && EndMarked(t0) && i < a
    ensures t[i] == Lengthened(t0, |t|)[i] && t[i][0] != 0
  {
    var l := Lengthened(t0, |t|);
    if l[i][0] == 0 {
      MarkedOn(t0, |t|);
      MarkIsBlock(l, i, n);
    }
  }

  lemma MarkIsBlock(l: seq<Entry>, i: nat, n: nat)
    requires EndMarked(l) && i + n <= |l| && i < |l| && l[i][0] == 0
    ensures FreeBlock(l, i, n)
  {
  }

  lemma MarkedOn(t: seq<Entry>, m: nat)
    requires EndMarked(t) && |t| <= m
    ensures EndMarked(Lengthened(t, m))
  {
    var l := Lengthened(t, m);
    forall i, j | 0 <= i <= j < |l| && l[i][0] == 0 ensures l[j][0] == 0 {
      if j < |t| {
        assert l[i] == t[i] && l[j] == t[j];
      }
    }
  }

  // No entry of the name begins with zero.
  lemma NameLive(t0: seq<Entry>, t: seq<Entry>, a: nat, name: seq<word>, fn: seq<byte>, nt: byte, sum: byte, i: nat)
    requires |fn| == 11 && fn[0] != 0 && IsName(name) && |name| > 0 && i <= Parts(name)
    requires Registered(t0, t, a, Parts(name) + 1, fn, nt) && DirFind.Stored(t, a, name, sum)
    ensures t[a + i][0] != 0
  {
    hide CharAt, FirstBlock, IsShort, Sum;
    if i < Parts(name) {
      PartsBound(name, Parts(name) - i);
      assert PartAt(t, a, name, sum, i);
    }
  }

  /** The end mark stays the end: nothing is stored behind it. */
  lemma StillEndMarked(t0: seq<Entry>, t: seq<Entry>, a: nat, name: seq<word>, fn: seq<byte>, nt: byte, sum: byte)
    requires |fn| == 11 && fn[0] != 0 && IsName(name) && |name| > 0 && EndMarked(t0)
    requires Registered(t0, t, a, Parts(name) + 1, fn, nt) && DirFind.Stored(t, a, name, sum)
    ensures EndMarked(t)
  {
    hide FirstBlock, DirFind.Stored, IsName;
    MarkedOn(t0, |t|);
    forall i, j | 0 <= i <= j < |t| && t[i][0] == 0 ensures t[j][0] == 0 {
      if i < a {
        NoMarkBefore(t0, t, a, Parts(name) + 1, fn, nt, i);
      } else if i <= a + Parts(name) {
        NameLive(t0, t, a, name, fn, nt, sum, i - a);
      }
      var l := Lengthened(t0, |t|);
      assert l[i] == t[i] && l[j] == t[j];
    }
  }

  /** A name that dir_register has stored is found by dir_find, at its entry or an earlier one that
      matches too, whenever the given name equals it up to case. */
  lemma RegisteredIsFound(up: word -> word, lfnbuf: seq<word>, given: seq<word>, sfn: seq<byte>, loss: bool, es: seq<Entry>, res: FRESULT,
                          t0: seq<Entry>, t: seq<Entry>, a: nat, name: seq<word>, fn: seq<byte>, nt: byte)
    requires |fn| == 11 && fn[0] != 0 && IsName(name) && |name| > 0 && EndMarked(t0)
    requires Registered(t0, t, a, Parts(name) + 1, fn, nt) && DirFind.Stored(t, a, name, Sum(fn))
    requires IsUpper(up) && Holding(lfnbuf, given) && SameName(up, given, name)
    requires Found(up, lfnbuf, sfn, false, loss, t, es, res) && (res == OK || res == NO_FILE || res == INT_ERR)
    ensures res == OK && |es| - 1 <= a + Parts(name)
  {
    hide FirstBlock, IsName, LongMatch, SameName, Holding, IsUpper, IsPart;
    var k := a + Parts(name);
    StoredIsFound(up, lfnbuf, given, t, a, name, Sum(fn));
    assert Selected(up, lfnbuf, sfn, false, loss, t, k);
    if k < |es| {
      SelectedPrefix(up, lfnbuf, sfn, false, loss, es, t, k);
    }
    forall i | 0 <= i <= k ensures t[i][0] != 0 {
      if i < a {
        NoMarkBefore(t0, t, a, Parts(name) + 1, fn, nt, i);
      } else {
        NameLive(t0, t, a, name, fn, nt, Sum(fn), i - a);
      }
    }
    hide Selected;
    if |es| > 0 {
      assert es[|es| - 1] == t[|es| - 1];
    }
  }

  /** Storing a name leaves the contents of every file alone whose clusters are not the table's. */
  lemma FileKept(g: Geometry, fixed: bool, ch: seq<nat>, oc: seq<nat>, v: seq<Sector>, w: seq<Sector>, size: nat)
    requires Laid(g, fixed, ch) && ClusterList(g, oc) && (forall c :: c in oc ==> c !in ch) && Holds(g, oc, size)
    requires |v| == g.total && Elsewhere(g, fixed, ch, v, w)
    ensures Content(g, w, oc, size) == Content(g, v, oc, size)
  {
    hide Content, Laid, ClusterList, Geometry.Ok;
    FileLaid(g, fixed, ch, oc);
    forall q: nat | q < g.csize * |oc| ensures 0 <= SectorOf(g, oc, q) < |v| && w[SectorOf(g, oc, q)] == v[SectorOf(g, oc, q)] {
      SectorPlace(g, false, oc, q);
      NotOfTable(g, fixed, ch, oc, q);
    }
    ContentKept(g, v, w, oc, oc, size);
  }

  lemma FileLaid(g: Geometry, fixed: bool, ch: seq<nat>, oc: seq<nat>)
    requires Laid(g, fixed, ch) && ClusterList(g, oc)
    ensures Laid(g, false, oc) && g.Ok() && g.csize > 0
  {
  }

  lemma NotOfTable(g: Geometry, fixed: bool, ch: seq<nat>, oc: seq<nat>, q: nat)
    requires Laid(g, fixed, ch) && Laid(g, false, oc) && (forall c :: c in oc ==> c !in ch) && g.csize > 0 && q < g.csize * |oc|
    ensures !OfTable(g, fixed, ch, SectorOf(g, oc, q))
  {
    hide ClusterList, SectorOf;
    SectorInCluster(g, oc, q);
    var s := SectorOf(g, oc, q);
    if !fixed && OfTable(g, fixed, ch, s) {
      var i :| 0 <= i < |ch| && g.InCluster(ch[i], s);
      DifferentClusters(ch, oc, i, q / g.csize);
      ClustersDisjoint(g, ch[i], oc[q / g.csize], s);
    }
  }

  lemma DifferentClusters(ch: seq<nat>, oc: seq<nat>, i: nat, j: nat)
    requires (forall c :: c in oc ==> c !in ch) && i < |ch| && j < |oc|
    ensures ch[i] != oc[j]
  {
    assert oc[j] in oc;
  }
}
