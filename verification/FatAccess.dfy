/** Reading and changing single FAT entries through the window. */
module FatAccess {
  import opened Arith
  import opened Bytes
  import opened Layout
  import opened FatTable
  import opened Chains
  import opened Volume

  // Bring the w bytes of the FAT from byte o on, which share a sector, into the window.
  method LoadFat(fs: FATFS, sect: nat, ghost o: nat, ghost w: nat) returns (res: FRESULT)
    requires fs.WindowOk() && sect == fs.g.fatbase + o / SECTOR_SIZE
    requires o % SECTOR_SIZE + w <= SECTOR_SIZE && 0 < w && o + w <= |fs.Fat()|
    modifies fs`disk, fs`faulted, fs`wflag, fs`winsect, fs.win
    ensures fs.WindowOk() && fs.Fat() == old(fs.Fat()) && SameView(fs.g, old(fs.View()), fs.View())
    ensures res == OK ==> fs.winsect == sect && fs.g.InFat1(sect) && fs.g.Meta(fs.sys, sect)
    ensures res == OK ==> fs.win[o % SECTOR_SIZE..o % SECTOR_SIZE + w] == fs.Fat()[o..o + w]
    ensures res != OK ==> res == DISK_ERR && fs.faulted
    ensures old(fs.faulted) ==> fs.faulted
  {
    Fat1IsMeta(fs.g, fs.sys, sect);
    FatInside(fs.g);
    res := fs.MoveWindow(sect);
    if res == OK {
      SectorOfRegion(fs.View(), fs.g.fatbase, fs.g.fsize, o, w);
    }
  }

  // One byte of the FAT.
  method GetFatByte(fs: FATFS, bc: nat) returns (res: FRESULT, x: byte)
    requires fs.WindowOk() && bc < |fs.Fat()|
    modifies fs`disk, fs`faulted, fs`wflag, fs`winsect, fs.win
    ensures fs.WindowOk() && fs.Fat() == old(fs.Fat()) && SameView(fs.g, old(fs.View()), fs.View())
    ensures res == OK ==> x == fs.Fat()[bc]
    ensures res == OK ==> fs.winsect == fs.g.fatbase + bc / SECTOR_SIZE && fs.g.InFat1(fs.winsect)
    ensures res != OK ==> res == DISK_ERR && fs.faulted
    ensures old(fs.faulted) ==> fs.faulted
  {
    res := LoadFat(fs, fs.g.fatbase + bc / SECTOR_SIZE, bc, 1);
    x := fs.win[bc % SECTOR_SIZE];
    assert res == OK ==> x == fs.win[bc % SECTOR_SIZE..bc % SECTOR_SIZE + 1][0];
  }

  lemma LinkFromWord(t: FsType, b: seq<byte>, n: nat, c: nat)
    requires c < n && FatBytesNeeded(t, n) <= |b| && t != FAT12
    ensures Offset(t, c) + Width(t) <= |b|
    ensures t == FAT16 ==> Links(t, b, n)[c] == LdWord(b, c * 2)
    ensures t == FAT32 ==> Links(t, b, n)[c] == LdDword(b, c * 4) % 0x1000_0000
    ensures t == EXFAT ==> Links(t, b, n)[c] == LdDword(b, c * 4) % 0x8000_0000
  {
    EntryInside(t, c, n);
  }

  method GetFat12(fs: FATFS, clst: dword) returns (val: dword)
    requires fs.WindowOk() && fs.g.fsType == FAT12 && fs.g.IsCluster(clst)
    modifies fs`disk, fs`faulted, fs`wflag, fs`winsect, fs.win
    ensures fs.WindowOk() && fs.Fat() == old(fs.Fat()) && SameView(fs.g, old(fs.View()), fs.View())
    ensures (val == IO_ERROR && fs.faulted) || val == fs.Links()[clst]
    ensures old(fs.faulted) ==> fs.faulted
  {
    hide FatBytes, Overlaid, Mirrored, Entry12;
    EntryInside(FAT12, clst, fs.g.nFatent);
    val := IO_ERROR;
    var bc := clst + clst / 2;
    var res, lo := GetFatByte(fs, bc);
    if res == OK {
      var hi;
      res, hi := GetFatByte(fs, bc + 1);
      if res == OK {
        val := Entry12(lo, hi, clst % 2 == 1);
      }
    }
  }

  // The FAT16, FAT32 and exFAT cases: one sector holds the whole entry.
  method GetFatWide(fs: FATFS, clst: dword) returns (val: dword)
    requires fs.WindowOk() && fs.g.fsType != FAT12 && fs.g.IsCluster(clst)
    modifies fs`disk, fs`faulted, fs`wflag, fs`winsect, fs.win
    ensures fs.WindowOk() && fs.Fat() == old(fs.Fat()) && SameView(fs.g, old(fs.View()), fs.View())
    ensures (val == IO_ERROR && fs.faulted) || val == fs.Links()[clst]
    ensures old(fs.faulted) ==> fs.faulted
  {
    hide FatBytes, Overlaid, Mirrored;
    EntryInside(fs.g.fsType, clst, fs.g.nFatent);
    val := IO_ERROR;
    if fs.g.fsType == FAT16 {
      EvenOffset(clst);
      var res := LoadFat(fs, fs.g.fatbase + clst / (SECTOR_SIZE / 2), clst * 2, 2);
      if res == OK {
        SameWord(fs.win[..], clst * 2 % SECTOR_SIZE, fs.Fat(), clst * 2);
        LinkFromWord(FAT16, fs.Fat(), fs.g.nFatent, clst);
        val := LdWord(fs.win[..], clst * 2 % SECTOR_SIZE);
      }
    } else {
      QuadOffset(clst);
      var res := LoadFat(fs, fs.g.fatbase + clst / (SECTOR_SIZE / 4), clst * 4, 4);
      if res == OK {
        SameDword(fs.win[..], clst * 4 % SECTOR_SIZE, fs.Fat(), clst * 4);
        LinkFromWord(fs.g.fsType, fs.Fat(), fs.g.nFatent, clst);
        val := LdDword(fs.win[..], clst * 4 % SECTOR_SIZE);
        val := if fs.g.fsType == FAT32 then val % 0x1000_0000 else val % 0x8000_0000;
      }
    }
  }

  // Entries of two and four bytes do not straddle sectors.
  lemma EvenOffset(c: nat)
    ensures c * 2 / SECTOR_SIZE == c / (SECTOR_SIZE / 2) && c * 2 % SECTOR_SIZE + 2 <= SECTOR_SIZE
  {
    DivDiv(c * 2, 2, SECTOR_SIZE / 2);
    ModDigits(c * 2, 2, SECTOR_SIZE / 2);
  }

  lemma QuadOffset(c: nat)
    ensures c * 4 / SECTOR_SIZE == c / (SECTOR_SIZE / 4) && c * 4 % SECTOR_SIZE + 4 <= SECTOR_SIZE
  {
    DivDiv(c * 4, 4, SECTOR_SIZE / 4);
    ModDigits(c * 4, 4, SECTOR_SIZE / 4);
  }

  /** get_fat */
  method GetFat(fs: FATFS, obj: FFOBJID, clst: dword) returns (val: dword)
    requires fs.WindowOk()
    modifies fs`disk, fs`faulted, fs`wflag, fs`winsect, fs.win
    ensures fs.WindowOk() && fs.Fat() == old(fs.Fat()) && SameView(fs.g, old(fs.View()), fs.View())
    ensures (val == IO_ERROR && fs.faulted) || val == FatValue(fs.g, fs.Links(), obj.Status(), clst)
    ensures val == IO_ERROR ==> fs.faulted
    ensures old(fs.faulted) ==> fs.faulted
  {
    if clst < 2 || clst >= fs.g.nFatent {
      val := BAD;
    } else if fs.g.fsType == FAT12 {
      val := GetFat12(fs, clst);
    } else if fs.g.fsType == FAT16 || fs.g.fsType == FAT32 {
      val := GetFatWide(fs, clst);
    } else {
      val := BAD;
      if (obj.objsize != 0 && obj.sclust != 0) || obj.stat == 0 {
        var cofs := FromStart(obj.Status(), clst);
        if obj.stat == 2 && cofs <= LastIndex(fs.g, obj.objsize) {
          val := if cofs == LastIndex(fs.g, obj.objsize) then EOC_EXFAT else clst + 1;
        } else if obj.stat == 3 && cofs < obj.nCont {
          val := clst + 1;
        } else if obj.stat != 2 {
          if obj.nFrag != 0 {
            val := EOC_EXFAT;
          } else {
            val := GetFatWide(fs, clst);
          }
        }
      }
    }
  }

  // Change bytes of the FAT in the window that holds them.
  method StoreFat(fs: FATFS, i: nat, ghost o: nat, x: seq<byte>)
    requires fs.WindowOk() && fs.g.InFat1(fs.winsect) && fs.g.Meta(fs.sys, fs.winsect)
    requires o == (fs.winsect - fs.g.fatbase) * SECTOR_SIZE + i && i + |x| <= SECTOR_SIZE
    modifies fs`wflag, fs.win
    ensures fs.WindowOk()
    ensures o + |x| <= |old(fs.Fat())| && fs.Fat() == Splice(old(fs.Fat()), o, x)
    ensures SameOutsideFats(fs.g, old(fs.View()), fs.View())
  {
    FatInside(fs.g);
    SpliceRegion(fs.View(), fs.g.fatbase, fs.g.fsize, fs.winsect, i, x);
    fs.StoreWindow(i, x);
  }

  method StoreFatByte(fs: FATFS, bc: nat, x: byte)
    requires fs.WindowOk() && bc < |fs.Fat()| && fs.winsect == fs.g.fatbase + bc / SECTOR_SIZE && fs.g.InFat1(fs.winsect)
    modifies fs`wflag, fs.win
    ensures fs.WindowOk()
    ensures bc < |old(fs.Fat())| && fs.Fat() == old(fs.Fat())[bc := x]
    ensures SameOutsideFats(fs.g, old(fs.View()), fs.View())
  {
    Fat1IsMeta(fs.g, fs.sys, fs.winsect);
    StoreFat(fs, bc % SECTOR_SIZE, bc, [x]);
    assert fs.Fat() == old(fs.Fat())[bc := x];
  }

  method PutFat12(fs: FATFS, clst: dword, val: dword) returns (res: FRESULT)
    requires fs.WindowOk() && fs.g.fsType == FAT12 && fs.g.IsCluster(clst)
    modifies fs`disk, fs`faulted, fs`wflag, fs`winsect, fs.win
    ensures fs.WindowOk() && SameOutsideFats(fs.g, old(fs.View()), fs.View())
    ensures Offset(FAT12, clst) + 2 <= |old(fs.Fat())|
    ensures var b, o := old(fs.Fat()), clst as int + clst as int / 2;
            if res == OK then fs.Fat() == Stored(FAT12, b, clst, val)
            else fs.Fat() == b || fs.Fat() == b[o := Stored(FAT12, b, clst, val)[o]]
    ensures res != OK ==> res == DISK_ERR && fs.faulted
    ensures old(fs.faulted) ==> fs.faulted
  {
    hide FatBytes, Overlaid, Mirrored;
    EntryInside(FAT12, clst, fs.g.nFatent);
    var bc, p := clst + clst / 2, 0;
    res, p := GetFatByte(fs, bc);
    if res == OK {
      StoreFatByte(fs, bc, if clst % 2 == 1 then Nibbles(val % 0x10, p % 0x10) else Lo(val));
      bc := bc + 1;
      res, p := GetFatByte(fs, bc);
      if res == OK {
        StoreFatByte(fs, bc, if clst % 2 == 1 then Lo(val / 0x10) else Nibbles(p / 0x10, val / 0x100 % 0x10));
      }
    }
  }

  method PutFatWide(fs: FATFS, clst: dword, val: dword) returns (res: FRESULT)
    requires fs.WindowOk() && fs.g.fsType != FAT12 && fs.g.IsCluster(clst)
    modifies fs`disk, fs`faulted, fs`wflag, fs`winsect, fs.win
    ensures fs.WindowOk() && SameOutsideFats(fs.g, old(fs.View()), fs.View())
    ensures Offset(fs.g.fsType, clst) + Width(fs.g.fsType) <= |old(fs.Fat())|
    ensures res == OK ==> fs.Fat() == Stored(fs.g.fsType, old(fs.Fat()), clst, val)
    ensures res != OK ==> res == DISK_ERR && fs.faulted && fs.Fat() == old(fs.Fat())
    ensures old(fs.faulted) ==> fs.faulted
  {
    hide FatBytes, Overlaid, Mirrored;
    ghost var b := fs.Fat();
    EntryInside(fs.g.fsType, clst, fs.g.nFatent);
    if fs.g.fsType == FAT16 {
      EvenOffset(clst);
      res := LoadFat(fs, fs.g.fatbase + clst / (SECTOR_SIZE / 2), clst * 2, 2);
      if res == OK {
        StWordSplices(b, clst * 2, val);
        StoreFat(fs, clst * 2 % SECTOR_SIZE, clst * 2, [Lo(val), Lo(val / 0x100)]);
      }
    } else {
      QuadOffset(clst);
      res := LoadFat(fs, fs.g.fatbase + clst / (SECTOR_SIZE / 4), clst * 4, 4);
      if res == OK {
        var v := val;
        if fs.g.fsType == FAT32 {
          SameDword(fs.win[..], clst * 4 % SECTOR_SIZE, fs.Fat(), clst * 4);
          v := Merged32(val, LdDword(fs.win[..], clst * 4 % SECTOR_SIZE));
        }
        StDwordSplices(b, clst * 4, v);
        StoreFat(fs, clst * 4 % SECTOR_SIZE, clst * 4, [Lo(v), Lo(v / 0x100), Lo(v / 0x1_0000), Lo(v / 0x100_0000)]);
      }
    }
  }

  /** put_fat: changes one link and, on FAT32, keeps the top four bits of its entry. */
  method PutFat(fs: FATFS, clst: dword, val: dword) returns (res: FRESULT)
    requires fs.WindowOk()
    modifies fs`disk, fs`faulted, fs`wflag, fs`winsect, fs.win
    ensures fs.WindowOk() && SameOutsideFats(fs.g, old(fs.View()), fs.View())
    ensures res == OK ==> fs.g.IsCluster(clst)
    ensures res == OK ==> fs.Links() == old(fs.Links())[clst := Masked(fs.g.fsType, val)]
    ensures res == OK && fs.g.fsType == FAT32 ==>
              Raw(FAT32, fs.Fat(), clst) / 0x1000_0000 == Raw(FAT32, old(fs.Fat()), clst) / 0x1000_0000
    ensures res != OK ==> forall d :: fs.g.IsCluster(d) && d != clst ==> fs.Links()[d] == old(fs.Links())[d]
    ensures res != OK ==> res == (if fs.g.IsCluster(clst) then DISK_ERR else INT_ERR)
    ensures res == DISK_ERR ==> fs.faulted
    ensures old(fs.faulted) ==> fs.faulted
  {
    res := INT_ERR;
    if clst >= 2 && clst < fs.g.nFatent {
      ghost var b, t := fs.Fat(), fs.g.fsType;
      EntryInside(t, clst, fs.g.nFatent);
      if fs.g.fsType == FAT12 {
        res := PutFat12(fs, clst, val);
        forall d | res != OK && fs.g.IsCluster(d) && d != clst ensures fs.Links()[d] == old(fs.Links())[d] {
          FirstByteStored12(b, clst, val, fs.g.nFatent, d);
        }
      } else {
        res := PutFatWide(fs, clst, val);
      }
      if res == OK {
        StoredLinks(t, b, clst, val, fs.g.nFatent);
        StoredEntry(t, b, clst, val);
      }
    }
  }
}
