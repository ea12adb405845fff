/** sync_fs and f_sync: what is on the drive alone once they succeed. */
module Sync {
  import opened Bytes
  import opened Layout
  import opened FatTable
  import opened Chains
  import opened Deferred
  import opened Volume
  import opened Info
  import opened ChainOps
  import opened FileData
  import opened File
  import opened Seek
  import opened DirEntry

  lemma InfoTold(free: dword, last: dword)
    ensures Told(FsInfo(free, last)) == free
  {
    FsInfoLoads(free, last);
  }

  /** sync_fs. Unless a drive call failed, the drive alone then holds what the volume logically
      held, apart from the FSInfo sector. */
  method SyncFs(fs: FATFS) returns (res: FRESULT)
    requires fs.WindowOk() && FsInfoPlace(fs.g)
    modifies fs`disk, fs`faulted, fs`wflag, fs`winsect, fs`fsiFlag, fs.win
    ensures |fs.disk| == fs.g.total && (fs.faulted || fs.WindowOk())
    ensures res == OK ==> !fs.wflag
    ensures res == OK ==> forall s :: 0 <= s < |fs.disk| && s != InfoSector(fs.g) && !fs.g.InFat2(s) ==> fs.disk[s] == old(fs.View())[s]
    ensures res == OK && !fs.faulted && fs.g.fsType == FAT32 && old(fs.fsiFlag) == 1 ==>
              fs.g.volbase + 1 < |fs.disk| && fs.disk[fs.g.volbase + 1] == FsInfo(fs.freeClst, fs.lastClst)
    ensures res == OK ==> fs.fsiFlag == if fs.g.fsType == FAT32 && old(fs.fsiFlag) == 1 then 0 else old(fs.fsiFlag)
    ensures res == OK && old(InfoOk(fs)) ==> InfoOk(fs)
    ensures res != OK ==> res == DISK_ERR && fs.faulted
    ensures old(fs.faulted) ==> fs.faulted
  {
    hide FsInfo, FatBytes, IsFsInfo, Told;
    FatInside(fs.g);
    res := fs.SyncWindow();
    if res == OK {
      if fs.g.fsType == FAT32 && fs.fsiFlag == 1 {
        var info := FsInfo(fs.freeClst, fs.lastClst);
        forall i | 0 <= i < SECTOR_SIZE { fs.win[i] := info[i]; }
        assert fs.win[..] == info;
        fs.winsect := fs.g.volbase + 1;
        var _ := fs.DiskWrite(fs.winsect, [info]);
        assert !fs.faulted ==> fs.disk[fs.winsect] == [info][0];
        fs.fsiFlag := 0;
        InfoTold(fs.freeClst, fs.lastClst);
      }
      // disk_ioctl(CTRL_SYNC)
      var ok: bool := *;
      if !ok {
        fs.faulted := true;
        res := DISK_ERR;
      }
    }
  }

  /** Where the directory entry of a file may be: metadata behind the boot sectors, not in a FAT. */
  ghost predicate EntryPlace(g: Geometry, sys: set<nat>, sect: nat, ofs: nat) {
    FsInfoPlace(g) && g.fatbase <= sect && g.Meta(sys, sect) && !g.InFat1(sect) && ofs + SZDIRE <= SECTOR_SIZE
  }

  // From v to w only the entry's sector, the FSInfo sector and the second FAT changed.
  ghost predicate EntryOnly(g: Geometry, sect: nat, v: seq<Sector>, w: seq<Sector>) {
    |v| == |w| && forall s :: 0 <= s < |v| && s != sect && s != InfoSector(g) && !g.InFat2(s) ==> w[s] == v[s]
  }

  lemma EntryOnlyFat(g: Geometry, sys: set<nat>, sect: nat, ofs: nat, v: seq<Sector>, w: seq<Sector>)
    requires g.Ok() && |v| == g.total && EntryPlace(g, sys, sect, ofs) && EntryOnly(g, sect, v, w)
    ensures FatBytes(g, v) == FatBytes(g, w)
  {
    FatInside(g);
    SameRegion(v, w, g.fatbase, g.fsize);
  }

  /** The entry is no part of the data of a file. */
  lemma EntryOnlyData(g: Geometry, sys: set<nat>, sect: nat, ofs: nat, v: seq<Sector>, w: seq<Sector>, ch: seq<nat>, size: nat)
    requires g.Ok() && |v| == g.total && EntryPlace(g, sys, sect, ofs) && EntryOnly(g, sect, v, w)
    requires ClusterList(g, ch) && PlainData(sys, ch) && Holds(g, ch, size)
    ensures |w| == g.total && Content(g, w, ch, size) == Content(g, v, ch, size)
  {
    assert g.total < NO_SECTOR;
    hide Geometry.Ok, ClusterList, PlainData, SectorOf, Holds;
    if g.fsType == FAT32 {
      InfoIsMeta(g, sys);
    }
    forall q: nat | q < g.csize * |ch| ensures 0 <= SectorOf(g, ch, q) < |v| && w[SectorOf(g, ch, q)] == v[SectorOf(g, ch, q)] {
      FileSectorIsData(g, sys, ch, q);
    }
    ContentKept(g, v, w, ch, ch, size);
  }

  /** From v to w the directory entry of the file was brought up to date, and nothing else of its sector. */
  ghost predicate EntryStored(fp: FIL, v: seq<Sector>, w: seq<Sector>, tm: dword)
    reads fp.obj
  {
    && fp.dirSect < |v| == |w| && fp.dirOfs + SZDIRE <= SECTOR_SIZE
    && var e := v[fp.dirSect][fp.dirOfs..fp.dirOfs + SZDIRE];
       w[fp.dirSect] == Splice(v[fp.dirSect], fp.dirOfs, Synced(fp.fs.g.fsType, e, fp.obj.sclust, fp.obj.objsize, tm))
  }

  // f_sync: the directory entry of the file, in the window.
  method StoreEntry(fp: FIL, tm: dword) returns (res: FRESULT)
    requires fp.fs.WindowOk() && EntryPlace(fp.fs.g, fp.fs.sys, fp.dirSect, fp.dirOfs)
    modifies fp.fs`disk, fp.fs`faulted, fp.fs`wflag, fp.fs`winsect, fp.fs.win
    ensures fp.fs.WindowOk() && EntryOnly(fp.fs.g, fp.dirSect, old(fp.fs.View()), fp.fs.View())
    ensures res == OK ==> EntryStored(fp, old(fp.fs.View()), fp.fs.View(), tm)
    ensures res != OK ==> res == DISK_ERR && fp.fs.faulted
    ensures old(InfoOk(fp.fs)) ==> InfoOk(fp.fs)
    ensures old(fp.fs.faulted) ==> fp.fs.faulted
  {
    hide Synced, FatBytes, Overlaid, Mirrored, InfoOk, Splice;
    FatInside(fp.fs.g);
    res := fp.fs.MoveWindow(fp.dirSect);
    if res == OK {
      var e := fp.fs.win[fp.dirOfs..fp.dirOfs + SZDIRE];
      assert e == fp.fs.win[..][fp.dirOfs..fp.dirOfs + SZDIRE];
      fp.fs.StoreWindow(fp.dirOfs, Synced(fp.fs.g.fsType, e, fp.obj.sclust, fp.obj.objsize, tm));
    }
    InfoKept(fp.fs);
  }

  // f_sync, behind the buffer: the directory entry, then everything to the drive.
  method SyncEntry(fp: FIL, tm: dword) returns (res: FRESULT)
    requires fp.fs.WindowOk() && EntryPlace(fp.fs.g, fp.fs.sys, fp.dirSect, fp.dirOfs)
    modifies fp.fs`disk, fp.fs`faulted, fp.fs`wflag, fp.fs`winsect, fp.fs`fsiFlag, fp.fs.win, fp`modified
    ensures |fp.fs.disk| == fp.fs.g.total && (fp.fs.faulted || fp.fs.WindowOk())
    ensures res == OK ==> !fp.fs.wflag && !fp.modified
    ensures res == OK ==> EntryOnly(fp.fs.g, fp.dirSect, old(fp.fs.View()), fp.fs.disk) && EntryStored(fp, old(fp.fs.View()), fp.fs.disk, tm)
    ensures res != OK ==> res == DISK_ERR && fp.fs.faulted
    ensures res == OK && old(InfoOk(fp.fs)) ==> InfoOk(fp.fs)
    ensures res == OK ==> fp.fs.fsiFlag == if fp.fs.g.fsType == FAT32 && old(fp.fs.fsiFlag) == 1 then 0 else old(fp.fs.fsiFlag)
    ensures old(fp.fs.faulted) ==> fp.fs.faulted
  {
    hide Synced, FatBytes, Overlaid, Mirrored, Splice, InfoOk;
    res := StoreEntry(fp, tm);
    if res == OK {
      EntryPlaced(fp.fs.g, fp.fs.sys, fp.dirSect, fp.dirOfs);
      res := SyncFs(fp.fs);
      fp.modified := false;
    }
  }

  lemma EntryPlaced(g: Geometry, sys: set<nat>, sect: nat, ofs: nat)
    requires g.Ok() && EntryPlace(g, sys, sect, ofs)
    ensures sect < g.total && sect != InfoSector(g) && !g.InFat2(sect)
  {
  }

  lemma EntryOnlyBuffer(g: Geometry, sys: set<nat>, sect: nat, ofs: nat, v: seq<Sector>, w: seq<Sector>, ch: seq<nat>,
                        bs: nat, sq: nat, dirty: bool, b: seq<byte>)
    requires g.Ok() && |v| == g.total && EntryPlace(g, sys, sect, ofs) && EntryOnly(g, sect, v, w)
    requires ClusterList(g, ch) && PlainData(sys, ch) && BufferPlaced(g, ch, bs, sq) && Buffered(v, bs, dirty, b)
    ensures Buffered(w, bs, dirty, b)
  {
    assert g.total < NO_SECTOR;
    if bs != 0 {
      FileSectorIsData(g, sys, ch, sq);
      if g.fsType == FAT32 {
        InfoIsMeta(g, sys);
      }
    }
  }

  /** The sectors in front of the FATs are the same, but for the FSInfo sector. */
  ghost predicate SameFront(g: Geometry, v: seq<Sector>, w: seq<Sector>) {
    |v| == |w| && forall s :: 0 <= s < |v| && s < g.fatbase && s != InfoSector(g) ==> w[s] == v[s]
  }

  lemma FrontEntry(g: Geometry, sys: set<nat>, sect: nat, ofs: nat, v: seq<Sector>, w: seq<Sector>)
    requires g.Ok() && EntryPlace(g, sys, sect, ofs) && EntryOnly(g, sect, v, w)
    ensures SameFront(g, v, w)
  {
  }

  // f_sync with the buffer written back.
  method SyncClean(fp: FIL, tm: dword, ghost d: seq<byte>) returns (res: FRESULT)
    requires fp.Ok() && fp.fs.g.fsType != EXFAT && EntryPlace(fp.fs.g, fp.fs.sys, fp.dirSect, fp.dirOfs) && !fp.dirty
    requires fp.Data() == d
    modifies fp.fs`disk, fp.fs`faulted, fp.fs`wflag, fp.fs`winsect, fp.fs`fsiFlag, fp.fs.win, fp`modified
    ensures |fp.fs.disk| == fp.fs.g.total
    ensures res == OK && !fp.fs.faulted ==> fp.Ok() && fp.Data() == d && !fp.modified && fp.fs.View() == fp.fs.disk
    ensures res == OK && !fp.fs.faulted ==> EntryStored(fp, old(fp.fs.View()), fp.fs.disk, tm)
    ensures res == OK && old(InfoOk(fp.fs)) ==> InfoOk(fp.fs)
    ensures res == OK ==> fp.fs.fsiFlag == if fp.fs.g.fsType == FAT32 && old(fp.fs.fsiFlag) == 1 then 0 else old(fp.fs.fsiFlag)
    ensures res == OK ==> !fp.fs.wflag
    ensures old(fp.fs.faulted) ==> fp.fs.faulted
    ensures res == OK ==> EntryOnly(fp.fs.g, fp.dirSect, old(fp.fs.View()), fp.fs.disk)
    ensures res != OK ==> res == DISK_ERR && fp.fs.faulted
  {
    hide Synced, FatBytes, FatTable.Links, Overlaid, Mirrored, Splice, Content, SectorOf, Denotes, FatAgrees, BitsAgree, ClusterIndex;
    hide FATFS.ListsOk, PlainData, Holds, Geometry.Meta, EntryPlace, EntryOnly, EntryStored, Buffered, InfoOk;
    OkParts(fp);
    CleanView(fp);
    ghost var v := fp.fs.View();
    res := SyncEntry(fp, tm);
    if res == OK && !fp.fs.faulted {
      FlushedView(fp.fs);
      EntryOnlyFat(fp.fs.g, fp.fs.sys, fp.dirSect, fp.dirOfs, v, fp.fs.disk);
      if !fp.Empty() {
        EntryOnlyBuffer(fp.fs.g, fp.fs.sys, fp.dirSect, fp.dirOfs, v, fp.fs.disk, fp.List(), fp.sect, fp.sq, false, fp.buf[..]);
        EntryOnlyData(fp.fs.g, fp.fs.sys, fp.dirSect, fp.dirOfs, v, fp.fs.disk, fp.List(), fp.obj.objsize);
        CleanView(fp);
      }
    }
  }

  lemma FlushedView(fs: FATFS)
    requires !fs.wflag
    ensures fs.View() == fs.disk
  {
  }

  /** f_sync on FAT12/16/32. If it succeeds and no drive call failed, the drive alone holds the
      contents of the file, its cluster list, and a directory entry from which f_open reads back
      the first cluster and the size. The free count in the FSInfo sector is then the one remembered, if it
      was before or had to be written. */
  method SyncFile(fp: FIL, tm: dword) returns (res: FRESULT)
    requires fp.Ok() && fp.fs.g.fsType != EXFAT && EntryPlace(fp.fs.g, fp.fs.sys, fp.dirSect, fp.dirOfs)
    modifies fp.fs`disk, fp.fs`faulted, fp.fs`wflag, fp.fs`winsect, fp.fs`fsiFlag, fp.fs.win, fp`modified, fp`dirty
    ensures |fp.fs.disk| == fp.fs.g.total
    ensures res == OK && !fp.fs.faulted ==> fp.Ok() && fp.Data() == old(fp.Data()) && !fp.modified
    ensures !old(fp.modified) ==> res == OK && fp.Ok() && fp.fs.disk == old(fp.fs.disk)
    ensures res == OK && !fp.fs.faulted && old(fp.modified) ==>
              && EntryStored(fp, old(fp.View()), fp.fs.disk, tm) && !fp.dirty && fp.fs.View() == fp.fs.disk
              && fp.View() == fp.fs.disk
    ensures res == OK && old(InfoOk(fp.fs)) ==> InfoOk(fp.fs)
    ensures res == OK && old(fp.modified) ==> fp.fs.fsiFlag == if fp.fs.g.fsType == FAT32 && old(fp.fs.fsiFlag) == 1 then 0 else old(fp.fs.fsiFlag)
    ensures res == OK && old(fp.modified) ==> !fp.fs.wflag
    ensures res == OK ==> SameFront(fp.fs.g, old(fp.fs.View()), fp.fs.View())
    ensures old(fp.fs.faulted) ==> fp.fs.faulted
    ensures res != OK ==> res == DISK_ERR && fp.fs.faulted
  {
    hide Synced, FatBytes, FatTable.Links, Overlaid, Mirrored, Splice, Content, SectorOf, Denotes, FatAgrees, BitsAgree, ClusterIndex;
    hide FATFS.ListsOk, FATFS.TableOk, PlainData, Holds, Geometry.Meta, EntryPlace, EntryOnly, EntryStored, SameElsewhere, InfoOk;
    ghost var v := fp.fs.View();
    res := OK;
    OkParts(fp);
    if fp.modified {
      ghost var d := fp.Data();
      OkClusters(fp);
      if fp.dirty {
        res := FlushBuffer(fp);
        InfoElsewhere(fp);
        FrontElsewhere(fp.fs.g, fp.List(), v, fp.fs.View());
        if res != OK {
          return;
        }
      }
      CleanView(fp);
      ghost var u := fp.fs.View();
      res := SyncClean(fp, tm, d);
      if res == OK {
        FlushedView(fp.fs);
        FrontEntry(fp.fs.g, fp.fs.sys, fp.dirSect, fp.dirOfs, u, fp.fs.disk);
      }
      CleanView(fp);
    }
  }

  // The first fragment lies within the FAT, and all of it belongs to the list.
  lemma FirstInside(g: Geometry, f: seq<dword>, a: Alloc, ch: seq<nat>)
    requires g.Ok() && g.fsType == EXFAT && Denotes(g, f, a, ch) && a.stat == 3 && a.sclust == ch[0]
    ensures 2 <= a.sclust && a.sclust + a.nCont <= g.nFatent
    ensures forall c: nat :: a.sclust <= c < a.sclust + a.nCont ==> c in ch
  {
    ConsecutiveAt(ch, a.nCont, a.nCont);
    forall c: nat | a.sclust <= c < a.sclust + a.nCont ensures c in ch {
      ConsecutiveAt(ch, a.nCont, c - a.sclust);
    }
  }

  lemma FirstFlushed(g: Geometry, f: seq<dword>, a: Alloc, ch: seq<nat>, size: nat, at: int)
    requires g.Ok() && g.fsType == EXFAT && Denotes(g, f, a, ch) && Sized(g, a, ch, size, at)
    requires a.stat == 3 && a.sclust == ch[0]
    ensures Denotes(g, FirstWritten(f, a.sclust, a.nCont), a.(stat := 0), ch) && Sized(g, a.(stat := 0), ch, size, at)
  {
    FlushFirst(g, f, a, ch);
  }

  // f_sync on exFAT: write the links of the first fragment.
  method FlushFirstLinks(fp: FIL) returns (res: FRESULT)
    requires fp.Ok() && fp.fs.g.fsType == EXFAT && !fp.Empty()
    modifies fp.fs`disk, fp.fs`faulted, fp.fs`wflag, fp.fs`winsect, fp.fs.win, fp.obj`stat
    ensures fp.fs.WindowOk() && SameOutsideTables(fp.fs.g, old(fp.fs.View()), fp.fs.View())
    ensures res == OK ==> fp.Ok() && fp.obj.stat != 3 && fp.Data() == old(fp.Data())
    ensures res == OK ==> TablesOnly(fp.fs.g, fp.List(), old(fp.fs.View()), fp.fs.View())
    ensures res != OK ==> res == DISK_ERR && fp.fs.faulted
    ensures old(fp.fs.faulted) ==> fp.fs.faulted
  {
    hide FatTable.Links, FatTable.Bits, FatBytes, BitmapBytes, Mirrored, Overlaid, FatAgrees, BitsAgree, SectorOf, ClusterIndex, Denotes;
    hide Content, Holds, PlainData, SameElsewhere, Buffered, Geometry.Ok, Placed, BufferPlaced, Sized, FATFS.ListsOk, BitmapIsMeta, FirstWritten, ClusterList, Geometry.IsCluster, FATFS.WindowOk;
    ghost var g, v, f, a, ch := fp.fs.g, fp.fs.View(), fp.fs.Links(), fp.obj.Status(), fp.List();
    OkParts(fp);
    BaseParts(fp);
    StartOfList(fp);
    if fp.obj.stat == 3 {
      FirstInside(g, f, a, ch);
      FirstFlushed(g, f, a, ch, fp.obj.objsize, fp.At());
    }
    res := FillFirstFrag(fp.fs, fp.obj);
    FatsOutside(g, v, fp.fs.View());
    if res == OK {
      FirstLinksOnly(g, ch, v, fp.fs.View(), a);
      BufferKept(g, fp.fs.sys, v, fp.fs.View(), ch, fp.sect, fp.sq, fp.dirty, fp.buf[..]);
      DataKept(g, fp.fs.sys, v, fp.fs.View(), ch, ch, fp.obj.objsize, fp.dirty, fp.sect, fp.buf[..]);
    }
  }

  // Writing the links of the first fragment changes links of the list only.
  lemma FirstLinksOnly(g: Geometry, ch: seq<nat>, v: seq<Sector>, w: seq<Sector>, a: Alloc)
    requires g.Ok() && |v| == |w| == g.total
    requires var f, f' := FatTable.Links(g.fsType, FatBytes(g, v), g.nFatent), FatTable.Links(g.fsType, FatBytes(g, w), g.nFatent);
             if a.stat == 3 then g.nFatent < 0x1_0000_0000 && f' == FirstWritten(f, a.sclust, a.nCont) else f' == f
    requires a.stat == 3 ==> forall c: nat :: a.sclust <= c < a.sclust + a.nCont ==> c in ch
    ensures LinksElsewhere(g, ch, v, w)
  {
    hide FatBytes, FatTable.Links;
  }

  /** f_sync on exFAT, up to the directory entry: all deferred links are written, so that the
      FAT itself spells the cluster list unless the object is contiguous. */
  method SyncLinks(fp: FIL) returns (res: FRESULT)
    requires fp.Ok() && fp.fs.g.fsType == EXFAT && !fp.Empty()
    modifies fp.fs`disk, fp.fs`faulted, fp.fs`wflag, fp.fs`winsect, fp.fs.win, fp.obj`stat, fp.obj`nFrag
    ensures fp.fs.WindowOk() && SameOutsideTables(fp.fs.g, old(fp.fs.View()), fp.fs.View())
    ensures res == OK ==> fp.Ok() && fp.Data() == old(fp.Data()) && fp.obj.nFrag == 0 && fp.obj.stat != 3
    ensures res == OK ==> fp.obj.stat == 2 || Spelled(fp.fs.g, fp.fs.Links(), fp.List())
    ensures res == OK ==> SameElsewhere(fp.fs.g, fp.List(), old(fp.fs.View()), fp.fs.View())
    ensures res != OK ==> res == DISK_ERR && fp.fs.faulted
  {
    hide FatTable.Links, FatTable.Bits, FatBytes, BitmapBytes, Mirrored, Overlaid, FatAgrees, BitsAgree, SectorOf, ClusterIndex, Spelled;
    hide Content, Holds, PlainData, SameElsewhere, Buffered, Geometry.Ok, Placed, BufferPlaced, Sized, FATFS.ListsOk, BitmapIsMeta;
    ghost var v := fp.fs.View();
    res := FlushFirstLinks(fp);
    if res == OK {
      OutsideIsElsewhere(fp.fs.g, fp.List(), v, fp.fs.View());
      ghost var u := fp.fs.View();
      res := FlushLinks(fp);
      OutsideIsElsewhere(fp.fs.g, fp.List(), u, fp.fs.View());
      SameElsewhereTwice(fp.fs.g, fp.List(), v, u, fp.fs.View());
      if res == OK {
        SyncedSpells(fp);
      }
    }
  }

  lemma SyncedSpells(fp: FIL)
    requires fp.Ok() && fp.fs.g.fsType == EXFAT && !fp.Empty() && fp.obj.nFrag == 0 && fp.obj.stat != 3
    ensures fp.obj.stat == 2 || Spelled(fp.fs.g, fp.fs.Links(), fp.List())
  {
    hide FATFS.TableOk, FATFS.ListsOk, SectorOf, ClusterIndex;
    if fp.obj.stat != 2 {
      FlushedIsSpelled(fp.fs.g, fp.fs.Links(), fp.obj.Status(), fp.List());
    }
  }
}
