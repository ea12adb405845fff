/** Directory tables: setting the index directly and moving it entry by entry. */
module Directory {
  import opened Arith
  import opened Bytes
  import opened Layout
  import opened FatTable
  import opened Chains
  import opened Volume
  import opened FatAccess
  import opened FileData
  import opened Seek
  import opened DirEntry
  import Deferred

  const MAX_DIR := 0x20_0000
  const MAX_DIR_EX := 0x1000_0000

  function MaxDir(t: FsType): nat {
    if t == EXFAT then MAX_DIR_EX else MAX_DIR
  }

  class DIR {
    const fs: FATFS
    const obj: FFOBJID
    var dptr: nat
    var clust: dword
    var sect: nat
    // dir, as an offset in the window
    var dir: nat

    constructor (fs: FATFS, obj: FFOBJID)
      ensures this.fs == fs && this.obj == obj
    {
      this.fs, this.obj, dptr, clust, sect, dir := fs, obj, 0, 0, 0, 0;
    }
  }

  /** The root directory of a FAT12/16 volume is not in clusters. */
  predicate Static(g: Geometry, sclust: nat) {
    sclust == 0 && g.fsType != FAT32 && g.fsType != EXFAT
  }

  /** First cluster of a table in clusters. */
  function FirstOf(g: Geometry, sclust: nat): nat {
    if sclust == 0 then g.dirbase else sclust
  }

  /** get_fat leads from the first cluster of ch through all of them to an end mark. */
  ghost predicate Walks(g: Geometry, f: seq<dword>, a: Alloc, ch: seq<nat>)
    requires g.Ok() && |f| == g.nFatent && forall c :: 0 <= c < |f| ==> f[c] < 0x8000_0000
  {
    && ClusterList(g, ch) && g.nFatent < 0x1_0000_0000
    && forall i :: 0 <= i < |ch| ==> Leads(g, f, a, ch, i)
  }

  // get_fat leads from entry i of the list to the next, or to an end mark.
  ghost predicate Leads(g: Geometry, f: seq<dword>, a: Alloc, ch: seq<nat>, i: nat)
    requires g.Ok() && |f| == g.nFatent && forall c :: 0 <= c < |f| ==> f[c] < 0x8000_0000
    requires i < |ch| && g.nFatent < 0x1_0000_0000 && ClusterList(g, ch)
  {
    if i + 1 < |ch| then FatValue(g, f, a, ch[i]) == ch[i + 1] else FatValue(g, f, a, ch[i]) >= g.nFatent
  }

  /** Entry number k belongs to the table. */
  ghost predicate InTable(g: Geometry, fixed: bool, ch: seq<nat>, k: nat)
    requires g.csize > 0
  {
    SZDIRE * k < MaxDir(g.fsType) && if fixed then k < g.nRootdir else ClusterIndex(g, SZDIRE * k) < |ch|
  }

  /** Where entry k of the table is. */
  ghost predicate Stands(g: Geometry, fixed: bool, ch: seq<nat>, k: nat, dptr: nat, clust: nat, sect: nat, dir: nat)
    requires g.csize > 0
  {
    var o := SZDIRE * k;
    && InTable(g, fixed, ch, k) && dptr == o && dir == o % SECTOR_SIZE
    && if fixed then clust == 0 && sect == g.dirbase + o / SECTOR_SIZE
       else clust == ch[ClusterIndex(g, o)] && o / SECTOR_SIZE < g.csize * |ch| && sect == SectorOf(g, ch, o / SECTOR_SIZE)
  }

  /** The table of a directory object: a root table in whole sectors, or a chain from its first cluster. */
  ghost predicate IsTable(fs: FATFS, obj: FFOBJID, ch: seq<nat>)
    reads fs, fs.win, obj
    ensures IsTable(fs, obj, ch) ==> fs.WindowOk() && fs.g.csize > 0
  {
    && fs.WindowOk()
    && if Static(fs.g, obj.sclust) then fs.g.dirbase > 0 && fs.g.nRootdir % 16 == 0 && ch == []
       else
         && Walks(fs.g, fs.Links(), if obj.sclust == 0 && fs.g.fsType == EXFAT then obj.Status().(stat := 0) else obj.Status(), ch)
         && ch[0] == FirstOf(fs.g, obj.sclust)
  }

  // The same position is reached whichever way: it is determined by the entry number.
  lemma StandsOnce(g: Geometry, fixed: bool, ch: seq<nat>, k: nat, d1: nat, c1: nat, s1: nat, o1: nat, d2: nat, c2: nat, s2: nat, o2: nat)
    requires g.csize > 0 && Stands(g, fixed, ch, k, d1, c1, s1, o1) && Stands(g, fixed, ch, k, d2, c2, s2, o2)
    ensures d1 == d2 && c1 == c2 && s1 == s2 && o1 == o2
  {
  }

  // The entries before an entry of the table belong to it too.
  lemma InTableDown(g: Geometry, fixed: bool, ch: seq<nat>, k: nat, j: nat)
    requires g.csize > 0 && InTable(g, fixed, ch, k) && j <= k
    ensures InTable(g, fixed, ch, j)
  {
    IndexIsQuotient(g, SZDIRE * k);
    IndexIsQuotient(g, SZDIRE * j);
    if !fixed && ClusterIndex(g, SZDIRE * k) < ClusterIndex(g, SZDIRE * j) {
      StartIsMultiple(g, ClusterIndex(g, SZDIRE * j));
      StartIsMultiple(g, ClusterIndex(g, SZDIRE * k) + 1);
      StartNext(g, ClusterIndex(g, SZDIRE * k));
      MulLe(ClusterBytes(g), ClusterIndex(g, SZDIRE * k) + 1, ClusterIndex(g, SZDIRE * j));
    }
  }

  // An entry o bytes into cluster i of the table.
  lemma EntryInCluster(g: Geometry, ch: seq<nat>, k: nat, i: nat, o: nat)
    requires g.Ok() && ClusterList(g, ch) && i < |ch| && SZDIRE * k == Start(g, i) + o && o < ClusterBytes(g) && SZDIRE * k < MaxDir(g.fsType)
    ensures g.ToSector(ch[i]) > 0
    ensures Stands(g, false, ch, k, SZDIRE * k, ch[i], g.ToSector(ch[i]) + o / SECTOR_SIZE, o % SECTOR_SIZE)
  {
    hide ClusterList, Geometry.Ok;
    ClusterSector(g, ch, i);
    OkSize(g);
    IndexInCluster(g, i, o);
    BlockUnique(SZDIRE * k / SECTOR_SIZE, g.csize, i, o / SECTOR_SIZE);
    MulLe(g.csize, i + 1, |ch|);
    MulSucc(g.csize, i);
  }

  lemma OkSize(g: Geometry)
    requires g.Ok()
    ensures g.csize > 0 && g.nFatent < 0x8000_0000
  {
  }

  // dir_sdi, chained table: follow the chain to the cluster of byte ofs of the table.
  method FollowTable(dp: DIR, clst0: dword, ofs0: nat, ghost ch: seq<nat>) returns (res: FRESULT, clst: dword, ofs: nat, ghost i: nat)
    requires dp.fs.WindowOk() && Walks(dp.fs.g, dp.fs.Links(), dp.obj.Status(), ch) && clst0 == ch[0]
    modifies dp.fs`disk, dp.fs`faulted, dp.fs`wflag, dp.fs`winsect, dp.fs.win
    ensures dp.fs.WindowOk() && dp.fs.Fat() == old(dp.fs.Fat()) && SameView(dp.fs.g, old(dp.fs.View()), dp.fs.View())
    ensures res == OK ==> i < |ch| && clst == ch[i] && ofs0 == Start(dp.fs.g, i) + ofs && ofs < ClusterBytes(dp.fs.g)
    ensures res == INT_ERR ==> ofs0 >= Start(dp.fs.g, |ch|)
    ensures res == OK || res == INT_ERR || (res == DISK_ERR && dp.fs.faulted)
    ensures old(dp.fs.faulted) ==> dp.fs.faulted
  {
    hide FatBytes, Overlaid, Mirrored, FatTable.Links, FatValue, ClusterList, Geometry.Ok, Start;
    res, clst, ofs, i := OK, clst0, ofs0, 0;
    ghost var g, f, a := dp.fs.g, dp.fs.Links(), dp.obj.Status();
    StartOfFirst(g);
    ChainFits(g, ch);
    var csz := ClusterBytes(dp.fs.g);
    while ofs >= csz
      invariant dp.fs.WindowOk() && dp.fs.Fat() == old(dp.fs.Fat()) && SameView(g, old(dp.fs.View()), dp.fs.View())
      invariant i < |ch| && clst == ch[i] && ofs0 == Start(g, i) + ofs && res == OK
      invariant old(dp.fs.faulted) ==> dp.fs.faulted
      decreases ofs
    {
      StartNext(g, i);
      assert dp.fs.Links() == f;
      WalkStep(g, f, a, ch, i);
      clst := GetFat(dp.fs, dp.obj, clst);
      if clst == 0xFFFF_FFFF {
        return DISK_ERR, clst, ofs, i;
      }
      if clst < 2 || clst >= dp.fs.g.nFatent {
        return INT_ERR, clst, ofs, i;
      }
      ofs := ofs - csz;
      i := i + 1;
    }
  }

  lemma WalkStep(g: Geometry, f: seq<dword>, a: Alloc, ch: seq<nat>, i: nat)
    requires g.Ok() && |f| == g.nFatent && forall c :: 0 <= c < |f| ==> f[c] < 0x8000_0000
    requires Walks(g, f, a, ch) && i < |ch|
    ensures ch[i] < g.nFatent < 0x8000_0000
    ensures if i + 1 < |ch| then FatValue(g, f, a, ch[i]) == ch[i + 1] && g.IsCluster(ch[i + 1]) else FatValue(g, f, a, ch[i]) >= g.nFatent
  {
    assert Leads(g, f, a, ch, i);
  }

  lemma ChainFits(g: Geometry, ch: seq<nat>)
    requires g.Ok() && ClusterList(g, ch)
    ensures ClusterBytes(g) > 0 && g.nFatent < 0x7FFF_FFFF + 1 && |ch| > 0 && forall i :: 0 <= i < |ch| ==> 2 <= ch[i] < g.nFatent
  {
  }

  /** The directory object stands at entry k of its table. */
  ghost predicate At(dp: DIR, ch: seq<nat>, k: nat)
    requires dp.fs.g.csize > 0
    reads dp, dp.obj
  {
    Stands(dp.fs.g, Static(dp.fs.g, dp.obj.sclust), ch, k, dp.dptr, dp.clust, dp.sect, dp.dir)
  }

  lemma StaticEntry(g: Geometry, k: nat)
    requires g.csize > 0 && SZDIRE * k < MaxDir(g.fsType) && k < g.nRootdir
    ensures Stands(g, true, [], k, SZDIRE * k, 0, g.dirbase + SZDIRE * k / SECTOR_SIZE, SZDIRE * k % SECTOR_SIZE)
  {
  }

  // Beyond the last cluster there are no entries.
  lemma BehindTable(g: Geometry, ch: seq<nat>, k: nat)
    requires g.csize > 0 && SZDIRE * k >= Start(g, |ch|)
    ensures !InTable(g, false, ch, k)
  {
    IndexIsQuotient(g, SZDIRE * k);
    if ClusterIndex(g, SZDIRE * k) < |ch| {
      StartNext(g, ClusterIndex(g, SZDIRE * k));
      MulLe(g.csize, ClusterIndex(g, SZDIRE * k) + 1, |ch|);
    }
  }

  // dir_sdi has marked the root directory of an exFAT volume as chained.
  ghost predicate RootChained(dp: DIR)
    reads dp.obj
  {
    dp.fs.g.fsType == EXFAT && dp.obj.sclust == 0 ==> dp.obj.stat == 0
  }

  // dir_sdi, chained table.
  method SdiChained(dp: DIR, clst0: dword, ofs: nat, ghost ch: seq<nat>) returns (res: FRESULT, clst: dword, o: nat)
    requires dp.fs.WindowOk() && Walks(dp.fs.g, dp.fs.Links(), dp.obj.Status(), ch) && clst0 == ch[0]
    requires dp.fs.g.csize > 0 && ofs % SZDIRE == 0 && ofs < MaxDir(dp.fs.g.fsType)
    modifies dp`sect, dp.fs`disk, dp.fs`faulted, dp.fs`wflag, dp.fs`winsect, dp.fs.win
    ensures dp.fs.WindowOk() && dp.fs.Fat() == old(dp.fs.Fat()) && SameView(dp.fs.g, old(dp.fs.View()), dp.fs.View())
    ensures res == OK ==> dp.sect > 0 && Stands(dp.fs.g, false, ch, ofs / SZDIRE, ofs, clst, dp.sect + o / SECTOR_SIZE, o % SECTOR_SIZE)
    ensures res == INT_ERR ==> !InTable(dp.fs.g, false, ch, ofs / SZDIRE)
    ensures res == OK || res == INT_ERR || (res == DISK_ERR && dp.fs.faulted)
    ensures old(dp.fs.faulted) ==> dp.fs.faulted
  {
    hide FatBytes, Overlaid, Mirrored, FatTable.Links, FatValue, ClusterList, Geometry.Ok, Start, Stands, Geometry.ToSector, ClusterIndex, ClusterBytes;
    ChainFits(dp.fs.g, ch);
    ghost var i;
    res, clst, o, i := FollowTable(dp, clst0, ofs, ch);
    if res != OK {
      if res == INT_ERR {
        BehindTable(dp.fs.g, ch, ofs / SZDIRE);
      }
      return;
    }
    EntryInCluster(dp.fs.g, ch, ofs / SZDIRE, i, o);
    dp.sect := dp.fs.g.ToSector(clst);
  }

  /** dir_sdi: goes to entry ofs / 32 if the table has it, and fails otherwise. */
  method DirSdi(dp: DIR, ofs: nat, ghost ch: seq<nat>) returns (res: FRESULT)
    requires IsTable(dp.fs, dp.obj, ch)
    modifies dp`dptr, dp`clust, dp`sect, dp`dir, dp.obj`stat, dp.fs`disk, dp.fs`faulted, dp.fs`wflag, dp.fs`winsect, dp.fs.win
    ensures dp.fs.WindowOk() && dp.fs.Fat() == old(dp.fs.Fat()) && SameView(dp.fs.g, old(dp.fs.View()), dp.fs.View())
    ensures IsTable(dp.fs, dp.obj, ch) && (res == OK ==> RootChained(dp) && dp.sect != 0)
    ensures res == OK ==> ofs % SZDIRE == 0 && At(dp, ch, ofs / SZDIRE)
    ensures res == INT_ERR ==> ofs % SZDIRE != 0 || !InTable(dp.fs.g, Static(dp.fs.g, dp.obj.sclust), ch, ofs / SZDIRE)
    ensures res == OK || res == INT_ERR || (res == DISK_ERR && dp.fs.faulted)
    ensures old(dp.fs.faulted) ==> dp.fs.faulted
  {
    hide FatBytes, Overlaid, Mirrored, FatTable.Links, FatValue, ClusterList, Geometry.Ok, Start, Stands, Geometry.ToSector, ClusterIndex, ClusterBytes, Leads;
    res := INT_ERR;
    if ofs >= MaxDir(dp.fs.g.fsType) || ofs % SZDIRE != 0 {
      return;
    }
    dp.dptr := ofs;
    var clst: dword, o: nat := dp.obj.sclust, ofs;
    if clst == 0 && (dp.fs.g.fsType == FAT32 || dp.fs.g.fsType == EXFAT) {
      RootFits(dp.fs, dp.obj, ch);
      clst := dp.fs.g.dirbase;
      if dp.fs.g.fsType == EXFAT {
        dp.obj.stat := 0;
      }
    }
    if clst == 0 {
      if ofs / SZDIRE >= dp.fs.g.nRootdir {
        return;
      }
      StaticEntry(dp.fs.g, ofs / SZDIRE);
      dp.sect := dp.fs.g.dirbase;
    } else {
      res, clst, o := SdiChained(dp, clst, ofs, ch);
      if res != OK {
        return;
      }
    }
    dp.clust := clst;
    if dp.sect == 0 {
      return INT_ERR;
    }
    dp.sect := dp.sect + o / SECTOR_SIZE;
    dp.dir := o % SECTOR_SIZE;
    res := OK;
  }

  lemma RootFits(fs: FATFS, obj: FFOBJID, ch: seq<nat>)
    requires IsTable(fs, obj, ch) && obj.sclust == 0 && !Static(fs.g, 0)
    ensures 2 <= fs.g.dirbase < 0x8000_0000 && |ch| > 0 && ch[0] == fs.g.dirbase
  {
    ChainFits(fs.g, ch);
  }

  lemma SectorGoesOn(o: nat)
    requires o % SZDIRE == 0 && (o + SZDIRE) % SECTOR_SIZE != 0
    ensures (o + SZDIRE) / SECTOR_SIZE == o / SECTOR_SIZE
  {
  }

  lemma SectorEnds(o: nat)
    requires (o + SZDIRE) % SECTOR_SIZE == 0
    ensures (o + SZDIRE) / SECTOR_SIZE == o / SECTOR_SIZE + 1
  {
  }

  lemma NextInSector(g: Geometry, fixed: bool, ch: seq<nat>, k: nat, clust: nat, sect: nat, dir: nat)
    requires g.csize > 0 && Stands(g, fixed, ch, k, SZDIRE * k, clust, sect, dir) && (fixed ==> g.nRootdir % 16 == 0)
    requires SZDIRE * k + SZDIRE < MaxDir(g.fsType) && (SZDIRE * k + SZDIRE) % SECTOR_SIZE != 0
    ensures Stands(g, fixed, ch, k + 1, SZDIRE * k + SZDIRE, clust, sect, (SZDIRE * k + SZDIRE) % SECTOR_SIZE)
  {
    hide SectorOf;
    SectorGoesOn(SZDIRE * k);
    if fixed {
      RootGoesOn(k, g.nRootdir);
    }
  }

  // A root table in whole sectors does not end within one.
  lemma RootGoesOn(k: nat, n: nat)
    requires k < n && n % 16 == 0 && (SZDIRE * k + SZDIRE) % SECTOR_SIZE != 0
    ensures k + 1 < n
  {
    if k + 1 == n {
      DivUnique(SZDIRE * n, SECTOR_SIZE, n / 16, 0);
    }
  }

  lemma NextStatic(g: Geometry, ch: seq<nat>, k: nat, clust: nat, sect: nat, dir: nat)
    requires g.csize > 0 && Stands(g, true, ch, k, SZDIRE * k, clust, sect, dir) && (SZDIRE * k + SZDIRE) % SECTOR_SIZE == 0
    ensures InTable(g, true, ch, k + 1) <==> SZDIRE * k + SZDIRE < MaxDir(g.fsType) && (SZDIRE * k + SZDIRE) / SZDIRE < g.nRootdir
    ensures InTable(g, true, ch, k + 1) ==> Stands(g, true, ch, k + 1, SZDIRE * k + SZDIRE, clust, sect + 1, 0)
  {
    SectorEnds(SZDIRE * k);
  }

  lemma NextSectorOf(g: Geometry, ch: seq<nat>, k: nat, clust: nat, sect: nat, dir: nat)
    requires g.Ok() && ClusterList(g, ch) && Stands(g, false, ch, k, SZDIRE * k, clust, sect, dir)
    requires SZDIRE * k + SZDIRE < MaxDir(g.fsType)
    requires (SZDIRE * k + SZDIRE) % SECTOR_SIZE == 0 && (SZDIRE * k + SZDIRE) / SECTOR_SIZE % g.csize != 0
    ensures Stands(g, false, ch, k + 1, SZDIRE * k + SZDIRE, clust, sect + 1, 0)
  {
    hide ClusterList, Geometry.Ok, SectorOf;
    OkSize(g);
    var q := SZDIRE * k / SECTOR_SIZE;
    SectorEnds(SZDIRE * k);
    BlockEnd(q + 1, g.csize);
    SectorsFollow(g, ch, q, 1);
  }

  lemma NextClusterOf(g: Geometry, ch: seq<nat>, k: nat, clust: nat, sect: nat, dir: nat)
    requires g.Ok() && ClusterList(g, ch) && Stands(g, false, ch, k, SZDIRE * k, clust, sect, dir)
    requires SZDIRE * k + SZDIRE < MaxDir(g.fsType)
    requires (SZDIRE * k + SZDIRE) % SECTOR_SIZE == 0 && (SZDIRE * k + SZDIRE) / SECTOR_SIZE % g.csize == 0
    ensures g.csize > 0
    ensures var i := ClusterIndex(g, SZDIRE * k);
            if i + 1 < |ch| then g.ToSector(ch[i + 1]) > 0 && Stands(g, false, ch, k + 1, SZDIRE * k + SZDIRE, ch[i + 1], g.ToSector(ch[i + 1]), 0)
            else !InTable(g, false, ch, k + 1)
  {
    hide ClusterList, Geometry.Ok, SectorOf;
    OkSize(g);
    var q, i := SZDIRE * k / SECTOR_SIZE, ClusterIndex(g, SZDIRE * k);
    SectorEnds(SZDIRE * k);
    BlockEnd(q + 1, g.csize);
    if i + 1 < |ch| {
      MulAssoc(SECTOR_SIZE, g.csize, i + 1);
      assert q + 1 == g.csize * (i + 1);
      EntryInCluster(g, ch, k + 1, i + 1, 0);
    }
  }

  lemma ChainedParts(dp: DIR, ch: seq<nat>, k: nat)
    requires IsTable(dp.fs, dp.obj, ch) && RootChained(dp) && At(dp, ch, k)
    ensures dp.dptr == SZDIRE * k && (dp.clust == 0 <==> Static(dp.fs.g, dp.obj.sclust))
    ensures dp.clust != 0 ==>
              var g, i := dp.fs.g, ClusterIndex(dp.fs.g, SZDIRE * k);
              && ClusterList(g, ch) && i < |ch| && dp.clust == ch[i]
              && if i + 1 < |ch| then FatValue(g, dp.fs.Links(), dp.obj.Status(), ch[i]) == ch[i + 1] && g.IsCluster(ch[i + 1])
                 else FatValue(g, dp.fs.Links(), dp.obj.Status(), ch[i]) >= g.nFatent
  {
    if !Static(dp.fs.g, dp.obj.sclust) {
      ChainFits(dp.fs.g, ch);
      WalkStep(dp.fs.g, dp.fs.Links(), dp.obj.Status(), ch, ClusterIndex(dp.fs.g, SZDIRE * k));
    }
  }

  // dir_next on a sector boundary.
  method NextSector(dp: DIR, ofs: nat, ghost ch: seq<nat>, ghost k: nat) returns (res: FRESULT)
    requires IsTable(dp.fs, dp.obj, ch) && RootChained(dp) && dp.sect != 0 && At(dp, ch, k)
    requires ofs == SZDIRE * k + SZDIRE < MaxDir(dp.fs.g.fsType) && ofs % SECTOR_SIZE == 0
    modifies dp`sect, dp`clust, dp.fs`disk, dp.fs`faulted, dp.fs`wflag, dp.fs`winsect, dp.fs.win
    ensures dp.fs.WindowOk() && dp.fs.Fat() == old(dp.fs.Fat()) && SameView(dp.fs.g, old(dp.fs.View()), dp.fs.View())
    ensures IsTable(dp.fs, dp.obj, ch)
    ensures res == OK ==> dp.sect != 0 && Stands(dp.fs.g, Static(dp.fs.g, dp.obj.sclust), ch, k + 1, ofs, dp.clust, dp.sect, 0)
    ensures res == NO_FILE ==> dp.sect == 0 && !InTable(dp.fs.g, Static(dp.fs.g, dp.obj.sclust), ch, k + 1)
    ensures res == OK || res == NO_FILE || (res == DISK_ERR && dp.fs.faulted)
    ensures old(dp.fs.faulted) ==> dp.fs.faulted
  {
    hide FatBytes, Overlaid, Mirrored, FatTable.Links, FatValue, ClusterList, Stands, Geometry.ToSector, ClusterIndex, Walks;
    ChainedParts(dp, ch, k);
    res := OK;
    if dp.clust == 0 {
      NextStatic(dp.fs.g, ch, k, dp.clust, dp.sect, dp.dir);
      dp.sect := dp.sect + 1;
      if ofs / SZDIRE >= dp.fs.g.nRootdir {
        dp.sect := 0;
        return NO_FILE;
      }
    } else if ofs / SECTOR_SIZE % dp.fs.g.csize == 0 {
      NextClusterOf(dp.fs.g, ch, k, dp.clust, dp.sect, dp.dir);
      dp.sect := dp.sect + 1;
      var clst := GetFat(dp.fs, dp.obj, dp.clust);
      if clst <= 1 {
        return INT_ERR;
      }
      if clst == 0xFFFF_FFFF {
        return DISK_ERR;
      }
      if clst >= dp.fs.g.nFatent {
        dp.sect := 0;
        return NO_FILE;
      }
      dp.clust := clst;
      dp.sect := dp.fs.g.ToSector(clst);
    } else {
      NextSectorOf(dp.fs.g, ch, k, dp.clust, dp.sect, dp.dir);
      dp.sect := dp.sect + 1;
    }
  }

  /** dir_next without stretching: from entry k to entry k + 1 if the table has it; otherwise it
      reports the end of the table and the object is disabled. */
  method DirNext(dp: DIR, ghost ch: seq<nat>, ghost k: nat) returns (res: FRESULT)
    requires IsTable(dp.fs, dp.obj, ch) && RootChained(dp) && (dp.sect == 0 || At(dp, ch, k))
    modifies dp`dptr, dp`clust, dp`sect, dp`dir, dp.fs`disk, dp.fs`faulted, dp.fs`wflag, dp.fs`winsect, dp.fs.win
    ensures dp.fs.WindowOk() && dp.fs.Fat() == old(dp.fs.Fat()) && SameView(dp.fs.g, old(dp.fs.View()), dp.fs.View())
    ensures IsTable(dp.fs, dp.obj, ch)
    ensures res == OK ==> old(dp.sect) != 0 && dp.sect != 0 && At(dp, ch, k + 1)
    ensures res == NO_FILE ==> dp.sect == 0 && (old(dp.sect) == 0 || !InTable(dp.fs.g, Static(dp.fs.g, dp.obj.sclust), ch, k + 1))
    ensures res == OK || res == NO_FILE || (res == DISK_ERR && dp.fs.faulted)
    ensures old(dp.fs.faulted) ==> dp.fs.faulted
  {
    hide FatBytes, Overlaid, Mirrored, FatTable.Links, FatValue, ClusterList, Geometry.Ok, Stands, Geometry.ToSector, ClusterIndex, Walks;
    var ofs := dp.dptr + SZDIRE;
    if dp.sect != 0 {
      ChainedParts(dp, ch, k);
    }
    if ofs >= MaxDir(dp.fs.g.fsType) {
      dp.sect := 0;
    }
    if dp.sect == 0 {
      return NO_FILE;
    }
    if ofs % SECTOR_SIZE == 0 {
      res := NextSector(dp, ofs, ch, k);
      if res != OK {
        return;
      }
    } else {
      NextInSector(dp.fs.g, Static(dp.fs.g, dp.obj.sclust), ch, k, dp.clust, dp.sect, dp.dir);
    }
    dp.dptr := ofs;
    dp.dir := ofs % SECTOR_SIZE;
    res := OK;
  }

  /** dir_sdi(0) followed by n calls of dir_next ends where dir_sdi(32 * n) ends (StandsOnce), and
      fails when that fails. */
  method StepTo(dp: DIR, n: nat, ghost ch: seq<nat>) returns (res: FRESULT)
    requires IsTable(dp.fs, dp.obj, ch)
    modifies dp`dptr, dp`clust, dp`sect, dp`dir, dp.obj`stat, dp.fs`disk, dp.fs`faulted, dp.fs`wflag, dp.fs`winsect, dp.fs.win
    ensures dp.fs.WindowOk() && dp.fs.Fat() == old(dp.fs.Fat()) && SameView(dp.fs.g, old(dp.fs.View()), dp.fs.View())
    ensures IsTable(dp.fs, dp.obj, ch)
    ensures res == OK ==> At(dp, ch, n)
    ensures res == INT_ERR || res == NO_FILE ==> !InTable(dp.fs.g, Static(dp.fs.g, dp.obj.sclust), ch, n)
    ensures res == OK || res == INT_ERR || res == NO_FILE || (res == DISK_ERR && dp.fs.faulted)
  {
    hide FatBytes, Overlaid, Mirrored, FatTable.Links, FatValue, ClusterList, Geometry.Ok, Stands, Walks, InTable;
    ghost var g := dp.fs.g;
    if InTable(g, Static(g, dp.obj.sclust), ch, n) {
      InTableDown(g, Static(g, dp.obj.sclust), ch, n, 0);
    }
    res := DirSdi(dp, 0, ch);
    var k: nat := 0;
    while res == OK && k < n
      invariant k <= n && dp.fs.WindowOk() && dp.fs.Fat() == old(dp.fs.Fat()) && SameView(g, old(dp.fs.View()), dp.fs.View())
      invariant IsTable(dp.fs, dp.obj, ch) && (res == OK ==> RootChained(dp) && dp.sect != 0 && At(dp, ch, k))
      invariant res == INT_ERR || res == NO_FILE ==> !InTable(g, Static(g, dp.obj.sclust), ch, n)
      invariant res == OK || res == INT_ERR || res == NO_FILE || (res == DISK_ERR && dp.fs.faulted)
      decreases n - k, res == OK
    {
      if InTable(g, Static(g, dp.obj.sclust), ch, n) {
        InTableDown(g, Static(g, dp.obj.sclust), ch, n, k + 1);
      }
      res := DirNext(dp, ch, k);
      k := k + 1;
    }
  }

  // A chain that a directory object denotes can be walked.
  lemma DenotedWalks(g: Geometry, f: seq<dword>, a: Alloc, ch: seq<nat>)
    requires g.Ok() && |f| == g.nFatent && forall c :: 0 <= c < |f| ==> f[c] < 0x8000_0000
    requires Denotes(g, f, a, ch) && forall i :: 0 <= i < |ch| ==> Answers(g, a, ch, i)
    ensures Walks(g, f, a, ch)
  {
    hide FatValue, Answers;
    Deferred.ListNonEmpty(g, f, a, ch);
    OkSize(g);
    forall i | 0 <= i < |ch| ensures Leads(g, f, a, ch, i) {
      NextInList(g, f, a, ch, i);
    }
  }
}
