/** From one session with a volume to the next: what mounting finds after everything has been written. */
module Remount {
  import opened Bytes
  import opened Layout
  import opened FatTable
  import opened Chains
  import opened Volume
  import opened Info
  import opened FileData
  import opened File
  import opened Sync
  import opened Mount

  /** An operation that leaves the boot sector alone, and changes the flag only to mark a changed count. */
  twostate lemma BootedKept(fs: FATFS)
    requires old(Booted(fs)) && |fs.View()| == |old(fs.View())| && fs.View()[0] == old(fs.View())[0]
    requires Noted(old(fs.freeClst), old(fs.fsiFlag), fs.freeClst, fs.fsiFlag) && (old(fs.faulted) ==> fs.faulted)
    ensures Booted(fs)
  {
    hide IsFatVbr, Analysed, ReadBpb;
  }

  /** When all is written, the free count that mounting will take from the drive is right for the lists. */
  lemma RememberedIsRight(fs: FATFS)
    requires fs.Valid() && Booted(fs) && InfoOk(fs) && FsInfoPlace(fs.g) && !fs.faulted && !fs.wflag
    requires fs.g.fsType == FAT32 && fs.fsiFlag < 0x80 ==> fs.fsiFlag == 0
    ensures CountOk(fs.g, fs.chains, Remembered(ReadBpb(fs.disk[0]), fs.g, fs.disk).0)
  {
    hide FATFS.WindowOk, FATFS.TableOk, IsFatVbr, Analysed, ReadBpb, IsFsInfo, FreeClusters, Disjoint;
    assert fs.View() == fs.disk;
  }

  // On the drive alone are the same tables.
  lemma SameTables(g: Geometry, v: seq<Sector>, w: seq<Sector>)
    requires g.Ok() && FsInfoPlace(g) && |v| == |w| == g.total
    requires forall s :: 0 <= s < |w| && s != InfoSector(g) && !g.InFat2(s) ==> w[s] == v[s]
    ensures FatBytes(g, w) == FatBytes(g, v)
  {
    FatInside(g);
    SameRegion(v, w, g.fatbase, g.fsize);
  }

  // sync_fs leaves the boot sector alone, and the flag unless it was 1.
  twostate lemma BootedWritten(fs: FATFS)
    requires old(Booted(fs)) && |fs.View()| == |old(fs.View())| && fs.View()[0] == old(fs.View())[0]
    requires fs.fsiFlag == old(fs.fsiFlag) || fs.fsiFlag == 0
    requires old(fs.faulted) ==> fs.faulted
    ensures Booted(fs)
  {
    hide IsFatVbr, Analysed, ReadBpb;
  }

  // A volume with the same tables and lists, and a right count, is valid.
  lemma NextValid(next: FATFS, f: seq<dword>)
    requires next.WindowOk() && next.g.fsType != EXFAT && next.Links() == f && FatAgrees(next.g, f, next.chains)
    requires Disjoint(next.g, next.chains) && CountOk(next.g, next.chains, next.freeClst) && forall c :: c in next.sys ==> Owned(next.chains, c)
    ensures next.Valid()
  {
    hide FATFS.WindowOk, FatAgrees, Disjoint, CountOk, Owned;
  }

  lemma ValidParts(fs: FATFS)
    requires fs.Valid() && fs.g.fsType != EXFAT
    ensures FatAgrees(fs.g, fs.Links(), fs.chains) && Disjoint(fs.g, fs.chains) && forall c :: c in fs.sys ==> Owned(fs.chains, c)
  {
  }

  /** sync_fs, then mounting again. If no drive call fails, the new session has a valid volume with the same
      cluster lists; the free count is right if one is remembered. */
  method SyncAndMount(fs: FATFS) returns (res: FRESULT, next: FATFS?, ghost failed: bool)
    requires fs.Valid() && Booted(fs) && InfoOk(fs) && FsInfoPlace(fs.g) && fs.g.fsType != EXFAT
    modifies fs`disk, fs`faulted, fs`wflag, fs`winsect, fs`fsiFlag, fs.win
    ensures !fs.faulted && !failed ==>
              && res == OK && next != null && fresh(next) && next.g == fs.g && next.chains == fs.chains
              && next.Valid() && Booted(next) && InfoOk(next) && next.Links() == old(fs.Links())
  {
    hide FATFS.WindowOk, FATFS.TableOk, FatBytes, FatTable.Links, FatAgrees, Disjoint, CountOk, FreeClusters, Owned, IsFatVbr, Analysed, ReadBpb, Remembered;
    hide InfoOk, Booted;
    ghost var v, f := fs.View(), fs.Links();
    next, failed := null, false;
    ValidParts(fs);
    BootedParts(fs);
    res := SyncFs(fs);
    if res != OK {
      return;
    }
    ghost var w := fs.disk;
    if !fs.faulted {
      assert fs.View() == w;
      SameTables(fs.g, v, w);
      BootedWritten(fs);
      NextValid(fs, f);
      RememberedIsRight(fs);
      BootedParts(fs);
    }
    res, next, failed := MountVolume(fs.disk, false, fs.chains, fs.sys);
    if !fs.faulted && !failed {
      NextValid(next, f);
    }
  }

  lemma BootedParts(fs: FATFS)
    requires Booted(fs)
    ensures |fs.View()| > 0 && fs.g.volbase == 0 < fs.g.fatbase && (fs.fsiFlag <= 1 || 0x80 <= fs.fsiFlag <= 0x81)
    ensures IsFatVbr(ReadBpb(fs.View()[0])) && Analysed(ReadBpb(fs.View()[0]), 0, |fs.View()|) == Some(fs.g)
  {
  }

  /** f_write, f_sync, then mounting again. If no drive call fails, the new session has a valid volume with the
      lists as the writing left them, and in the clusters of the file are its contents with the bytes written. */
  method WriteSyncMount(fp: FIL, buff: seq<byte>, tm: dword) returns (res: FRESULT, bw: nat, next: FATFS?, ghost failed: bool)
    requires fp.Ok() && Mapped(fp) && fp.canWrite && |buff| < 0x1_0000_0000 && fp.fs.g.fsType != EXFAT
    requires EntryPlace(fp.fs.g, fp.fs.sys, fp.dirSect, fp.dirOfs) && Booted(fp.fs) && InfoOk(fp.fs)
    modifies fp`fptr, fp`clust, fp`sect, fp`sq, fp`dirty, fp`modified, fp`err, fp.fs, fp.fs.win, fp.obj, fp.buf
    ensures !fp.fs.faulted && !failed ==>
              && res == OK && next != null && next.Valid() && Booted(next) && InfoOk(next)
              && next.g == fp.fs.g && next.chains == fp.fs.chains && next.View() == fp.fs.View()
              && fp.Ok() && fp.fptr == old(fp.fptr) + bw && bw <= |buff| && fp.Data() == Overwrite(old(fp.Data()), old(fp.fptr), buff[..bw])
    ensures !fp.fs.faulted && !failed && fp.obj.sclust != 0 ==>
              fp.Data() == Content(next.g, next.View(), fp.List(), fp.obj.objsize)
  {
    hide FATFS.WindowOk, FATFS.ListsOk, FATFS.TableOk, FATFS.Valid, FatBytes, FatTable.Links, FatAgrees, Disjoint, CountOk, FreeClusters, Owned;
    hide IsFatVbr, Analysed, ReadBpb, Remembered, InfoOk, Booted, FIL.Ok, SameElsewhere, Content, Overwrite, EntryPlace, EntryStored, Mapped, Noted;
    hide Exhausted, ListGrew, Clipped, Splice, Overlaid, FIL.Base, FIL.Tracked, FIL.Empty, Holds, SameFront, Mirrored, Geometry.Ok;
    next, failed := null, false;
    OkParts(fp);
    OkValid(fp);
    BootedParts(fp.fs);
    ghost var v := fp.fs.View();
    res, bw := Write(fp, buff);
    if res != OK {
      return;
    }
    OkClusters(fp);
    OkValid(fp);
    FrontElsewhere(fp.fs.g, fp.List(), v, fp.fs.View());
    BootedKept(fp.fs);
    BootedParts(fp.fs);
    label Written:
    ghost var u := fp.fs.View();
    res := SyncFile(fp, tm);
    if res != OK {
      return;
    }
    if !fp.fs.faulted {
      BootSame(fp.fs.g, u, fp.fs.View());
      BootedWritten@Written(fp.fs);
      OkValid(fp);
      PlaceParts(fp.fs.g, fp.fs.sys, fp.dirSect, fp.dirOfs);
      RememberedIsRight(fp.fs);
      BootedParts(fp.fs);
      ValidParts(fp.fs);
    }
    res, next, failed := MountVolume(fp.fs.disk, false, fp.fs.chains, fp.fs.sys);
    if !fp.fs.faulted && !failed {
      NextValid(next, fp.fs.Links());
    }
  }

  lemma BootSame(g: Geometry, v: seq<Sector>, w: seq<Sector>)
    requires SameFront(g, v, w) && g.volbase == 0 < g.fatbase && |v| > 0
    ensures w[0] == v[0]
  {
  }

  lemma PlaceParts(g: Geometry, sys: set<nat>, sect: nat, ofs: nat)
    requires EntryPlace(g, sys, sect, ofs)
    ensures FsInfoPlace(g)
  {
  }

  lemma OkValid(fp: FIL)
    requires fp.Ok()
    ensures fp.fs.Valid() && fp.Base() && fp.fs.WindowOk() && |fp.fs.View()| == |fp.fs.disk| == fp.fs.g.total < NO_SECTOR
  {
  }
}
