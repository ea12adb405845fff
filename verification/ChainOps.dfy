/** Growing and shrinking cluster chains. */
module ChainOps {
  import opened Arith
  import opened Bytes
  import opened Layout
  import opened FatTable
  import opened Chains
  import opened Volume
  import opened Info
  import opened FatAccess
  import opened Bitmap
  import opened Deferred

  // No cluster from lo up to and including hi is marked free.
  ghost predicate NoneFree(g: Geometry, f: seq<dword>, lo: int, hi: int)
    requires |f| == g.nFatent
  {
    forall c :: lo <= c <= hi && g.IsCluster(c) ==> f[c] != 0
  }

  // The search loop of create_chain: the first free cluster behind scl, going round
  // once; 0 when there is none.
  method ScanFree(fs: FATFS, obj: FFOBJID, scl: dword) returns (ncl: dword)
    requires fs.WindowOk() && fs.g.fsType != EXFAT && 1 <= scl < fs.g.nFatent
    modifies fs`disk, fs`faulted, fs`wflag, fs`winsect, fs.win
    ensures fs.WindowOk() && fs.Fat() == old(fs.Fat()) && SameView(fs.g, old(fs.View()), fs.View())
    ensures ncl == IO_ERROR ==> fs.faulted
    ensures ncl == BAD ==> exists c :: fs.g.IsCluster(c) && fs.Links()[c] == BAD
    ensures ncl == 0 ==> NoneFree(fs.g, fs.Links(), 2, fs.g.nFatent - 1)
    ensures ncl != 0 && ncl != BAD && ncl != IO_ERROR ==> fs.g.IsCluster(ncl) && fs.Links()[ncl] == 0
    ensures old(fs.faulted) ==> fs.faulted
  {
    hide FatBytes, Overlaid, Mirrored, FatTable.Links;
    ghost var f := fs.Links();
    ncl := scl;
    ghost var wrapped := false;
    while true
      invariant fs.WindowOk() && fs.Fat() == old(fs.Fat()) && SameView(fs.g, old(fs.View()), fs.View())
      invariant old(fs.faulted) ==> fs.faulted
      invariant !wrapped ==> scl <= ncl < fs.g.nFatent && NoneFree(fs.g, f, scl + 1, ncl)
      invariant wrapped ==> 2 <= ncl < scl && NoneFree(fs.g, f, scl + 1, fs.g.nFatent - 1) && NoneFree(fs.g, f, 2, ncl)
      decreases !wrapped, fs.g.nFatent - ncl
    {
      ncl := ncl + 1;
      if ncl >= fs.g.nFatent {
        ncl := 2;
        wrapped := true;
        if ncl > scl {
          return 0;
        }
      }
      var cs := GetFat(fs, obj, ncl);
      if cs == 0 {
        return;
      }
      if cs == BAD || cs == IO_ERROR {
        return cs;
      }
      if ncl == scl {
        return 0;
      }
    }
  }

  /** fill_last_frag: writes the links of the last nFrag clusters up to lcl. */
  method FillLastFrag(fs: FATFS, obj: FFOBJID, lcl: dword, term: dword) returns (res: FRESULT)
    requires fs.WindowOk() && fs.g.fsType == EXFAT
    requires obj.nFrag > 0 ==> obj.nFrag + 1 <= lcl < fs.g.nFatent
    modifies fs`disk, fs`faulted, fs`wflag, fs`winsect, fs.win, obj`nFrag
    ensures fs.WindowOk() && SameOutsideFats(fs.g, old(fs.View()), fs.View())
    ensures res == OK ==> obj.nFrag == 0 && fs.g.nFatent < 0x1_0000_0000 &&
                          fs.Links() == PendingWritten(old(fs.Links()), lcl, old(obj.nFrag), Masked(EXFAT, term))
    ensures forall c :: fs.g.IsCluster(c) && !(lcl - old(obj.nFrag) < c <= lcl) ==> fs.Links()[c] == old(fs.Links())[c]
    ensures res != OK ==> res == DISK_ERR && fs.faulted
    ensures old(fs.faulted) ==> fs.faulted
  {
    hide FatBytes, Overlaid, Mirrored, FatTable.Links, Raw, Masked;
    ghost var f, n := fs.Links(), obj.nFrag;
    res := OK;
    while obj.nFrag > 0
      invariant fs.WindowOk() && SameOutsideFats(fs.g, old(fs.View()), fs.View()) && (old(fs.faulted) ==> fs.faulted)
      invariant res == OK && obj.nFrag <= n && |f| < 0x8000_0000
      invariant obj.nFrag > 0 ==> fs.Links() == FirstWritten(f, lcl - n + 1, n - obj.nFrag)
      invariant obj.nFrag == 0 ==> fs.Links() == PendingWritten(f, lcl, n, Masked(EXFAT, term))
      decreases obj.nFrag
    {
      LinkFits(fs.g, lcl - obj.nFrag + 2);
      res := PutFat(fs, lcl - obj.nFrag + 1, if obj.nFrag > 1 then lcl - obj.nFrag + 2 else term);
      if res != OK {
        return;
      }
      obj.nFrag := obj.nFrag - 1;
    }
  }

  // Cluster numbers fit into the links of their FAT, and the end mark is above them.
  lemma LinkFits(g: Geometry, c: int)
    requires g.Ok() && 0 <= c <= g.nFatent
    ensures Masked(g.fsType, c) == c
    ensures Masked(g.fsType, 0xFFFF_FFFF) >= g.nFatent
  {
    match g.fsType
    case FAT12 => SmallMod(c, 0x1000);
    case FAT16 => SmallMod(c, 0x1_0000);
    case FAT32 => SmallMod(c, 0x1000_0000);
    case EXFAT => SmallMod(c, 0x8000_0000);
  }

  /** fill_first_frag: writes the links of the first fragment of a just fragmented object. */
  method FillFirstFrag(fs: FATFS, obj: FFOBJID) returns (res: FRESULT)
    requires fs.WindowOk() && fs.g.fsType == EXFAT
    requires obj.stat == 3 && obj.nCont > 0 ==> 2 <= obj.sclust && obj.sclust + obj.nCont <= fs.g.nFatent
    modifies fs`disk, fs`faulted, fs`wflag, fs`winsect, fs.win, obj`stat
    ensures fs.WindowOk() && SameOutsideFats(fs.g, old(fs.View()), fs.View())
    ensures res == OK && old(obj.stat) == 3 ==> obj.stat == 0 && fs.g.nFatent < 0x1_0000_0000 &&
                                                fs.Links() == FirstWritten(old(fs.Links()), obj.sclust, obj.nCont)
    ensures old(obj.stat) != 3 ==> res == OK && obj.stat == old(obj.stat) && fs.Links() == old(fs.Links())
    ensures res != OK ==> res == DISK_ERR && fs.faulted
    ensures old(fs.faulted) ==> fs.faulted
  {
    hide FatBytes, Overlaid, Mirrored, FatTable.Links, Raw, Masked;
    res := OK;
    if obj.stat == 3 {
      ghost var f := fs.Links();
      var cl: nat, n: nat := obj.sclust, obj.nCont;
      while n > 0
        invariant fs.WindowOk() && SameOutsideFats(fs.g, old(fs.View()), fs.View()) && (old(fs.faulted) ==> fs.faulted)
        invariant res == OK && n <= obj.nCont && cl == obj.sclust + (obj.nCont - n) && |f| < 0x8000_0000
        invariant fs.Links() == FirstWritten(f, obj.sclust, obj.nCont - n)
      {
        LinkFits(fs.g, cl + 1);
        res := PutFat(fs, cl, cl + 1);
        if res != OK {
          return;
        }
        cl, n := cl + 1, n - 1;
      }
      obj.stat := 0;
    }
  }

  // create_chain on FAT12/16/32, search: the cluster behind the end, or the first free
  // one behind the last allocated cluster.
  method PickFat(fs: FATFS, obj: FFOBJID, clst: dword, scl0: dword) returns (ncl: dword)
    requires fs.WindowOk() && fs.g.fsType != EXFAT && 1 <= scl0 < fs.g.nFatent
    modifies fs`disk, fs`faulted, fs`wflag, fs`winsect, fs.win
    ensures fs.WindowOk() && fs.Fat() == old(fs.Fat()) && SameView(fs.g, old(fs.View()), fs.View())
    ensures ncl == IO_ERROR ==> fs.faulted
    ensures ncl == BAD ==> exists c :: fs.g.IsCluster(c) && fs.Links()[c] == BAD
    ensures ncl == 0 ==> NoneFree(fs.g, fs.Links(), 2, fs.g.nFatent - 1)
    ensures ncl != 0 && ncl != BAD && ncl != IO_ERROR ==> fs.g.IsCluster(ncl) && fs.Links()[ncl] == 0
    ensures old(fs.faulted) ==> fs.faulted
  {
    hide FatBytes, Overlaid, Mirrored, FatTable.Links;
    var scl := scl0;
    ncl := 0;
    if scl == clst {
      ncl := scl + 1;
      if ncl >= fs.g.nFatent {
        ncl := 2;
      }
      var cs := GetFat(fs, obj, ncl);
      if cs == BAD || cs == IO_ERROR {
        return cs;
      }
      if cs != 0 {
        cs := fs.lastClst;
        if cs >= 2 && cs < fs.g.nFatent {
          scl := cs;
        }
        ncl := 0;
      }
    }
    if ncl == 0 {
      ncl := ScanFree(fs, obj, scl);
    }
  }

  // create_chain on FAT12/16/32, update: mark the new cluster as the end and link it.
  method LinkFat(fs: FATFS, clst: dword, ncl: dword) returns (res: FRESULT)
    requires fs.WindowOk() && fs.g.fsType != EXFAT && fs.g.IsCluster(ncl) && (clst == 0 || fs.g.IsCluster(clst))
    modifies fs`disk, fs`faulted, fs`wflag, fs`winsect, fs.win
    ensures fs.WindowOk() && SameOutsideFats(fs.g, old(fs.View()), fs.View())
    ensures forall d :: fs.g.IsCluster(d) && d != ncl && d != clst ==> fs.Links()[d] == old(fs.Links())[d]
    ensures res == OK && clst == 0 ==> fs.Links() == old(fs.Links())[ncl := Masked(fs.g.fsType, 0xFFFF_FFFF)]
    ensures res == OK && clst != 0 ==> fs.Links() == old(fs.Links())[ncl := Masked(fs.g.fsType, 0xFFFF_FFFF)][clst := ncl]
    ensures res != OK ==> res == DISK_ERR && fs.faulted
    ensures old(fs.faulted) ==> fs.faulted
  {
    hide FatBytes, Overlaid, Mirrored, FatTable.Links, Raw, Masked;
    LinkFits(fs.g, ncl);
    res := PutFat(fs, ncl, 0xFFFF_FFFF);
    if res == OK && clst != 0 {
      res := PutFat(fs, clst, ncl);
    }
  }

  // create_chain on exFAT: append a cluster to an object that is not contiguous.
  method ExtendFragment(fs: FATFS, obj: FFOBJID, clst: dword, ncl: dword) returns (res: FRESULT)
    requires fs.WindowOk() && fs.g.fsType == EXFAT && fs.g.IsCluster(ncl) && fs.g.IsCluster(clst)
    requires obj.stat != 2 && obj.nFrag < clst
    modifies fs`disk, fs`faulted, fs`wflag, fs`winsect, fs.win, obj`nFrag
    ensures fs.WindowOk() && SameOutsideFats(fs.g, old(fs.View()), fs.View())
    ensures res == OK ==> obj.nFrag == if ncl != clst + 1 then 1 else if old(obj.nFrag) > 0 then old(obj.nFrag) + 1 else 2
    ensures res == OK ==> fs.Links() == AppendedLinks(old(fs.Links()), old(obj.Status()), clst, ncl)
    ensures forall c :: fs.g.IsCluster(c) && c != clst && !(clst - old(obj.nFrag) < c <= clst) ==> fs.Links()[c] == old(fs.Links())[c]
    ensures res != OK ==> res == DISK_ERR && fs.faulted
    ensures old(fs.faulted) ==> fs.faulted
  {
    hide FatBytes, Overlaid, Mirrored, FatTable.Links, Raw, Masked, PendingWritten;
    res := OK;
    if ncl == clst + 1 {
      obj.nFrag := if obj.nFrag != 0 then obj.nFrag + 1 else 2;
    } else {
      if obj.nFrag == 0 {
        obj.nFrag := 1;
      }
      LinkFits(fs.g, ncl);
      res := FillLastFrag(fs, obj, clst, ncl);
      if res == OK {
        obj.nFrag := 1;
      }
    }
  }

  // create_chain on exFAT, update of the chain status and of the FAT.
  method LinkExFat(fs: FATFS, obj: FFOBJID, clst: dword, ncl: dword) returns (res: FRESULT)
    requires fs.WindowOk() && fs.g.fsType == EXFAT && fs.g.IsCluster(ncl)
    requires clst != 0 ==> fs.g.IsCluster(clst) && obj.nFrag < clst
    requires clst != 0 && obj.stat == 2 ==> obj.nFrag == 0 && obj.sclust <= clst
    modifies fs`disk, fs`faulted, fs`wflag, fs`winsect, fs.win, obj`stat, obj`nCont, obj`nFrag
    ensures fs.WindowOk() && SameOutsideFats(fs.g, old(fs.View()), fs.View())
    ensures clst == 0 ==> res == OK && obj.Status() == old(obj.Status()).(stat := 2) && fs.Links() == old(fs.Links())
    ensures res == OK && clst != 0 ==>
              && obj.Status() == Appended(old(obj.Status()), clst, ncl)
              && fs.Links() == AppendedLinks(old(fs.Links()), old(obj.Status()), clst, ncl)
    ensures forall c :: fs.g.IsCluster(c) && c != clst && !(clst - old(obj.nFrag) < c <= clst) ==> fs.Links()[c] == old(fs.Links())[c]
    ensures res != OK ==> res == DISK_ERR && fs.faulted
    ensures old(fs.faulted) ==> fs.faulted
  {
    hide FatBytes, Overlaid, Mirrored, FatTable.Links, PendingWritten, Geometry.Meta, Raw, Masked, FatTable.Bits, Geometry.Ok;
    res := OK;
    if clst == 0 {
      obj.stat := 2;
    } else if obj.stat == 2 && ncl != clst + 1 {
      obj.nCont := clst - obj.sclust;
      obj.stat := 3;
    }
    if obj.stat != 2 {
      res := ExtendFragment(fs, obj, clst, ncl);
    }
  }

  /** Cluster clst is entry number at of list key. */
  ghost predicate ListedAt(chains: ClusterLists, key: nat, at: nat, clst: nat) {
    key in chains && at < |chains[key]| && chains[key][at] == clst
  }

  /** The allocation state of the object denotes list key of the volume. */
  ghost predicate Tracks(fs: FATFS, obj: FFOBJID, key: nat)
    requires fs.WindowOk()
    reads fs, fs.win, obj
  {
    key in fs.chains && Denotes(fs.g, fs.Links(), obj.Status(), fs.chains[key])
  }

  // get_fat on a valid volume follows the list of the object.
  lemma FollowsList(fs: FATFS, obj: FFOBJID, key: nat, at: nat, clst: nat)
    requires fs.WindowOk() && Tracks(fs, obj, key) && ListedAt(fs.chains, key, at, clst)
    requires Answers(fs.g, obj.Status(), fs.chains[key], at)
    ensures var ch := fs.chains[key]; var v := FatValue(fs.g, fs.Links(), obj.Status(), clst);
            if at + 1 < |ch| then v == ch[at + 1] && fs.g.IsCluster(v) else v >= fs.g.nFatent
    ensures fs.g.IsCluster(clst)
    ensures fs.g.fsType == EXFAT && Disjoint(fs.g, fs.chains) ==> obj.sclust == key
  {
    NextInList(fs.g, fs.Links(), obj.Status(), fs.chains[key], at);
    ListNonEmpty(fs.g, fs.Links(), obj.Status(), fs.chains[key]);
  }

  // A full table means that every cluster is in a list.
  lemma FullTable(g: Geometry, f: seq<dword>, chains: ClusterLists)
    requires FatAgrees(g, f, chains) && NoneFree(g, f, 2, g.nFatent - 1)
    ensures FreeClusters(g, chains) == {}
  {
  }

  // The FAT12/16/32 part of create_chain: find a free cluster and link it behind clst.
  method AllocFat(fs: FATFS, obj: FFOBJID, clst: dword, scl: dword, ghost key: nat) returns (ncl: dword, res: FRESULT)
    requires fs.Valid() && fs.g.fsType != EXFAT && 1 <= scl < fs.g.nFatent
    requires clst != 0 ==> key in fs.chains && ListedAt(fs.chains, key, |fs.chains[key]| - 1, clst)
    modifies fs`disk, fs`faulted, fs`wflag, fs`winsect, fs.win
    ensures fs.WindowOk() && SameOutsideFats(fs.g, old(fs.View()), fs.View())
    ensures ncl == 0 ==> res == OK && FreeClusters(fs.g, fs.chains) == {} && fs.Links() == old(fs.Links())
    ensures res == OK && ncl != 0 ==>
              && fs.g.IsCluster(ncl) && !Owned(fs.chains, ncl)
              && FatAgrees(fs.g, fs.Links(), Grown(fs.chains, if clst == 0 then ncl else key, ncl))
    ensures forall d :: fs.g.IsCluster(d) && Owned(fs.chains, d) && d != clst ==> fs.Links()[d] == old(fs.Links())[d]
    ensures res != OK ==> res == DISK_ERR && fs.faulted
    ensures old(fs.faulted) ==> fs.faulted
  {
    hide FatBytes, Overlaid, Mirrored, FatTable.Links, Raw, Masked, Spelled, BitsAgree;
    ghost var f := fs.Links();
    if clst != 0 {
      assert ClusterList(fs.g, fs.chains[key]);
    }
    ncl := PickFat(fs, obj, clst, scl);
    res := OK;
    if ncl == BAD {
      ghost var c :| fs.g.IsCluster(c) && f[c] == BAD;
      NoBadLink(fs.g, f, fs.chains, c);
    } else if ncl == IO_ERROR {
      res := DISK_ERR;
    } else if ncl != 0 {
      LinkFits(fs.g, ncl);
      res := LinkFat(fs, clst, ncl);
      if res == OK {
        GrownFat(fs.g, f, fs.Links(), fs.chains, if clst == 0 then ncl else key, ncl);
      }
    } else {
      FullTable(fs.g, f, fs.chains);
    }
  }

  // Find the first free cluster behind scl in the bitmap and mark it as used.
  method TakeBit(fs: FATFS, scl: dword) returns (ncl: dword, res: FRESULT)
    requires fs.WindowOk() && fs.BitmapOk()
    modifies fs`disk, fs`faulted, fs`wflag, fs`winsect, fs.win
    ensures fs.WindowOk() && SameOutsideBitmap(fs.g, old(fs.View()), fs.View()) && fs.Fat() == old(fs.Fat())
    ensures ncl == 0 ==> res == OK && fs.Bits() == old(fs.Bits()) && forall i :: 0 <= i < |fs.Bits()| ==> fs.Bits()[i]
    ensures res == OK && ncl != 0 ==> fs.g.IsCluster(ncl) && !old(fs.Bits())[ncl - 2]
    ensures res == OK && ncl != 0 ==> fs.Bits() == old(fs.Bits())[ncl - 2 := true]
    ensures res != OK ==> res == DISK_ERR && fs.faulted
    ensures old(fs.faulted) ==> fs.faulted
  {
    hide FatBytes, Overlaid, Mirrored, FatTable.Links, FatTable.Bits, BitmapBytes;
    ncl := FindBitmap(fs, scl, 1);
    res := OK;
    if ncl == IO_ERROR {
      return ncl, DISK_ERR;
    }
    FirstFree(fs.Bits(), ScanStart(fs.g, scl), ncl);
    if ncl != 0 {
      ghost var bits := fs.Bits();
      var done;
      res, done := ChangeBitmap(fs, ncl, 1, true);
      assert res == OK ==> fs.Bits() == bits[ncl - 2 := true];
    }
  }

  // The exFAT part of create_chain: take the first free cluster behind clst from the
  // bitmap and append it to the object.
  method AllocExFat(fs: FATFS, obj: FFOBJID, clst: dword, scl: dword, ghost key: nat) returns (ncl: dword, res: FRESULT)
    requires fs.Valid() && fs.g.fsType == EXFAT
    requires clst != 0 ==> Tracks(fs, obj, key) && obj.sclust == key && ListedAt(fs.chains, key, |fs.chains[key]| - 1, clst)
    requires clst == 0 ==> obj.nFrag == 0
    modifies fs`disk, fs`faulted, fs`wflag, fs`winsect, fs.win, obj`stat, obj`nCont, obj`nFrag
    ensures fs.WindowOk() && SameOutsideTables(fs.g, old(fs.View()), fs.View())
    ensures ncl == 0 ==> res == OK && FreeClusters(fs.g, fs.chains) == {} && fs.Links() == old(fs.Links()) && fs.Bits() == old(fs.Bits())
    ensures ncl == 0 ==> obj.Status() == old(obj.Status())
    ensures res == OK && ncl != 0 ==>
              && fs.g.IsCluster(ncl) && !Owned(fs.chains, ncl)
              && var k := if clst == 0 then ncl else key;
              && BitsAgree(fs.g, fs.Bits(), Grown(fs.chains, k, ncl))
              && Denotes(fs.g, fs.Links(), obj.Status().(sclust := k), Grown(fs.chains, k, ncl)[k])
    ensures forall d :: fs.g.IsCluster(d) && (clst != 0 ==> d !in fs.chains[key])
              ==> fs.Links()[d] == old(fs.Links())[d]
    ensures res != OK ==> res == DISK_ERR && fs.faulted
    ensures old(fs.faulted) ==> fs.faulted
  {
    hide FatBytes, Overlaid, Mirrored, FatTable.Links, FatTable.Bits, Denotes, BitmapBytes, BitsAgree, FreeClusters, SetRun;
    ghost var a, f, bits := obj.Status(), fs.Links(), fs.Bits();
    if clst != 0 {
      AppendReady(fs, obj, key, clst);
    }
    ncl, res := TakeBit(fs, scl);
    if ncl == 0 {
      FullBitmap(fs.g, fs.Bits(), fs.chains);
    } else if res == OK {
      ghost var k := if clst == 0 then ncl else key;
      FreeBit(fs.g, bits, fs.chains, ncl);
      GrownBits(fs.g, bits, fs.chains, k, ncl);
      ghost var v := fs.View();
      res := LinkExFat(fs, obj, clst, ncl);
      SameBitmap(fs.g, v, fs.View());
      if res == OK {
        if clst == 0 {
          OneCluster(fs.g, fs.Links(), obj.Status().(sclust := ncl), ncl);
        } else {
          AppendedDenotes(fs.g, f, a, fs.chains[key], ncl);
        }
      }
    }
  }

  lemma FreeBit(g: Geometry, bits: seq<bool>, chains: ClusterLists, c: nat)
    requires |bits| == g.nFatent - 2 && BitsAgree(g, bits, chains) && g.IsCluster(c) && !bits[c - 2]
    ensures !Owned(chains, c)
  {
  }

  lemma FullBitmap(g: Geometry, bits: seq<bool>, chains: ClusterLists)
    requires |bits| == g.nFatent - 2 && BitsAgree(g, bits, chains) && forall i :: 0 <= i < |bits| ==> bits[i]
    ensures FreeClusters(g, chains) == {}
  {
  }

  lemma OneCluster(g: Geometry, f: seq<dword>, a: Alloc, c: nat)
    requires g.Ok() && g.fsType == EXFAT && |f| == g.nFatent && a.stat == 2 && a.nFrag == 0 && g.IsCluster(c)
    ensures Denotes(g, f, a, [c])
  {
  }

  lemma AppendReady(fs: FATFS, obj: FFOBJID, key: nat, clst: nat)
    requires fs.Valid() && fs.g.fsType == EXFAT && Tracks(fs, obj, key) && obj.sclust == key
    requires ListedAt(fs.chains, key, |fs.chains[key]| - 1, clst)
    ensures fs.g.IsCluster(clst) && obj.nFrag < clst && |fs.chains[key]| < 0xFFFF_FFFF
    ensures obj.stat == 2 ==> obj.nFrag == 0 && obj.sclust <= clst
    ensures forall c: nat :: c == clst || clst - obj.nFrag < c <= clst ==> c in fs.chains[key]
  {
    PendingInside(fs.g, fs.Links(), obj.Status(), fs.chains[key]);
    ListFits(fs.g, fs.chains[key]);
    if obj.stat == 2 {
      ContiguousEnd(fs.g, fs.chains[key]);
    }
  }

  // The flag with the mark that the FSInfo sector has to be written.
  function Dirtied(flag: nat): nat {
    if flag % 2 == 0 then flag + 1 else flag
  }

  // The closing part of create_chain: remember the new cluster and count it.
  method Account(fs: FATFS, ncl: dword, ghost k: nat)
    requires fs.WindowOk() && fs.ListsOk() && fs.g.IsCluster(ncl) && !Owned(fs.chains, ncl) && (k in fs.chains || k == ncl)
    requires if fs.g.fsType == EXFAT then fs.BitmapOk() && BitsAgree(fs.g, fs.Bits(), Grown(fs.chains, k, ncl))
             else FatAgrees(fs.g, fs.Links(), Grown(fs.chains, k, ncl))
    modifies fs`lastClst, fs`freeClst, fs`fsiFlag, fs`chains
    ensures fs.Valid() && fs.chains == Grown(old(fs.chains), k, ncl) && fs.lastClst == ncl
    ensures Noted(old(fs.freeClst), old(fs.fsiFlag), fs.freeClst, fs.fsiFlag)
  {
    hide FatBytes, Overlaid, Mirrored, FatTable.Links, FatTable.Bits, BitmapBytes, BitsAgree, FatAgrees, FreeClusters, Disjoint, Owned, Geometry.Meta;
    GrownDisjoint(fs.g, fs.chains, k, ncl);
    GrownCount(fs.g, fs.chains, k, ncl);
    fs.lastClst := ncl;
    if fs.freeClst <= fs.g.nFatent - 2 {
      fs.freeClst := fs.freeClst - 1;
    }
    fs.fsiFlag := Dirtied(fs.fsiFlag);
    fs.chains := Grown(fs.chains, k, ncl);
  }

  // The opening part of create_chain: does a cluster follow clst already?
  method NextOrEnd(fs: FATFS, obj: FFOBJID, clst: dword, ghost key: nat, ghost at: nat) returns (cs: dword)
    requires fs.Valid() && Tracks(fs, obj, key) && ListedAt(fs.chains, key, at, clst)
    requires Answers(fs.g, obj.Status(), fs.chains[key], at)
    modifies fs`disk, fs`faulted, fs`wflag, fs`winsect, fs.win
    ensures fs.WindowOk() && SameView(fs.g, old(fs.View()), fs.View()) && fs.Links() == old(fs.Links())
    ensures cs != IO_ERROR ==> fs.Valid() && Tracks(fs, obj, key)
    ensures cs == IO_ERROR ==> fs.faulted
    ensures fs.g.IsCluster(clst) && (fs.g.fsType == EXFAT ==> obj.sclust == key)
    ensures cs != IO_ERROR ==> cs == FatValue(fs.g, fs.Links(), obj.Status(), clst)
    ensures cs != IO_ERROR ==> if at + 1 < |fs.chains[key]| then cs == fs.chains[key][at + 1] && fs.g.IsCluster(cs) else cs >= fs.g.nFatent
    ensures old(fs.faulted) ==> fs.faulted
  {
    hide FatBytes, Overlaid, Mirrored, FatTable.Links, FatTable.Bits, Denotes, BitmapBytes, BitsAgree, FatAgrees, FreeClusters;
    FollowsList(fs, obj, key, at, clst);
    ghost var v := fs.View();
    cs := GetFat(fs, obj, clst);
    if fs.g.fsType == EXFAT {
      SameViewOutside(fs.g, v, fs.View());
      SameBitmap(fs.g, v, fs.View());
    }
  }

  lemma SameViewOutside(g: Geometry, a: seq<Sector>, b: seq<Sector>)
    requires SameView(g, a, b)
    ensures SameOutsideFats(g, a, b) && SameOutsideTables(g, a, b)
  {
  }

  // The middle part of create_chain: find a free cluster and link it in.
  method Allocate(fs: FATFS, obj: FFOBJID, clst: dword, scl: dword, ghost key: nat) returns (ncl: dword, res: FRESULT)
    requires fs.Valid() && 1 <= scl < fs.g.nFatent
    requires clst != 0 ==> Tracks(fs, obj, key) && ListedAt(fs.chains, key, |fs.chains[key]| - 1, clst)
    requires clst != 0 && fs.g.fsType == EXFAT ==> obj.sclust == key
    requires clst == 0 && fs.g.fsType == EXFAT ==> obj.nFrag == 0
    modifies fs`disk, fs`faulted, fs`wflag, fs`winsect, fs.win, obj`stat, obj`nCont, obj`nFrag
    ensures fs.WindowOk() && SameOutsideTables(fs.g, old(fs.View()), fs.View())
    ensures ncl == 0 ==> res == OK && FreeClusters(fs.g, fs.chains) == {} && fs.Valid()
    ensures ncl == 0 ==> fs.Links() == old(fs.Links()) && obj.Status() == old(obj.Status())
    ensures ncl == IO_ERROR || ncl == BAD ==> res != OK
    ensures res == OK && ncl != 0 ==>
              && fs.g.IsCluster(ncl) && !Owned(fs.chains, ncl)
              && var k := if clst == 0 then ncl else key; var after := Grown(fs.chains, k, ncl);
              && (if fs.g.fsType == EXFAT then BitsAgree(fs.g, fs.Bits(), after) else FatAgrees(fs.g, fs.Links(), after))
              && Denotes(fs.g, fs.Links(), obj.Status().(sclust := if clst == 0 then ncl else obj.sclust), after[k])
    ensures forall d :: fs.g.IsCluster(d) && (fs.g.fsType == EXFAT || Owned(fs.chains, d)) && (clst != 0 ==> d !in fs.chains[key])
              ==> fs.Links()[d] == old(fs.Links())[d]
    ensures obj.sclust == old(obj.sclust) && obj.objsize == old(obj.objsize)
    ensures res != OK ==> res == DISK_ERR && fs.faulted
    ensures old(fs.faulted) ==> fs.faulted
  {
    hide FatBytes, Overlaid, Mirrored, FatTable.Links, FatTable.Bits, BitmapBytes, BitsAgree, Spelled, FreeClusters;
    if fs.g.fsType == EXFAT {
      ncl, res := AllocExFat(fs, obj, clst, scl, key);
    } else {
      ncl, res := AllocFat(fs, obj, clst, scl, key);
      SameFatsOutside(fs.g, old(fs.View()), fs.View());
    }
  }

  lemma SameFatsOutside(g: Geometry, a: seq<Sector>, b: seq<Sector>)
    requires SameOutsideFats(g, a, b)
    ensures SameOutsideTables(g, a, b)
  {
  }

  /** create_chain: the cluster behind clst in list key, allocated if clst is the end of
      the list; a new list of one cluster for clst = 0. Zero means the volume is full. */
  method CreateChain(fs: FATFS, obj: FFOBJID, clst: dword, ghost key: nat, ghost at: nat) returns (r: dword)
    requires fs.Valid()
    requires clst != 0 ==> Tracks(fs, obj, key) && ListedAt(fs.chains, key, at, clst)
    requires clst != 0 ==> Answers(fs.g, obj.Status(), fs.chains[key], at)
    requires clst == 0 && fs.g.fsType == EXFAT ==> obj.nFrag == 0
    modifies fs, fs.win, obj`stat, obj`nCont, obj`nFrag
    ensures fs.WindowOk() && fs.sys == old(fs.sys) && SameOutsideTables(fs.g, old(fs.View()), fs.View())
    ensures r == IO_ERROR ==> fs.faulted && fs.chains == old(fs.chains)
    ensures r != IO_ERROR ==> fs.Valid() && r != BAD
    // full
    ensures r == 0 ==> fs.chains == old(fs.chains) && FreeClusters(fs.g, fs.chains) == {} && obj.Status() == old(obj.Status())
    ensures r == 0 ==> clst == 0 || (Tracks(fs, obj, key) && at + 1 == |fs.chains[key]|)
    // already followed by a cluster
    ensures r > 1 && r != IO_ERROR && clst != 0 && at + 1 < |old(fs.chains)[key]| ==>
              fs.chains == old(fs.chains) && r == fs.chains[key][at + 1] && obj.Status() == old(obj.Status()) && Tracks(fs, obj, key)
    // a free cluster is appended, or starts a list
    ensures r > 1 && r != IO_ERROR && (clst == 0 || at + 1 == |old(fs.chains)[key]|) ==>
              && !Owned(old(fs.chains), r) && fs.lastClst == r
              && fs.chains == Grown(old(fs.chains), if clst == 0 then r else key, r)
              && Denotes(fs.g, fs.Links(), obj.Status().(sclust := if clst == 0 then r else obj.sclust),
                         fs.chains[if clst == 0 then r else key])
    // links of other lists stay, on exFAT also those of free clusters
    ensures forall d :: fs.g.IsCluster(d) && (fs.g.fsType == EXFAT || Owned(old(fs.chains), d)) && (clst != 0 ==> d !in old(fs.chains)[key])
              ==> fs.Links()[d] == old(fs.Links())[d]
    // a changed count is to be written to the FSInfo sector
    ensures Noted(old(fs.freeClst), old(fs.fsiFlag), fs.freeClst, fs.fsiFlag)
    ensures old(InfoOk(fs)) ==> InfoOk(fs)
    ensures old(fs.faulted) ==> fs.faulted
  {
    hide FatBytes, Overlaid, Mirrored, FatTable.Links, FatTable.Bits, Denotes, BitmapBytes, BitsAgree, FatAgrees, FreeClusters, Disjoint, InfoOk;
    var scl: dword;
    if clst == 0 {
      scl := fs.lastClst;
      if scl == 0 || scl >= fs.g.nFatent {
        scl := 1;
      }
    } else {
      r := NextOrEnd(fs, obj, clst, key, at);
      SameViewOutside(fs.g, old(fs.View()), fs.View());
      if r < 2 {
        return BAD;
      }
      if r < fs.g.nFatent || r == IO_ERROR {
        InfoStays(fs);
        return;
      }
      scl := clst;
    }
    if fs.freeClst == 0 {
      InfoStays(fs);
      return 0;
    }
    var res;
    r, res := Allocate(fs, obj, clst, scl, key);
    if r == 0 {
      InfoStays(fs);
      return;
    }
    if res == OK {
      Account(fs, r, if clst == 0 then r else key);
    } else {
      r := IO_ERROR;
    }
    InfoStays(fs);
  }

  // What changes the tables only, and marks a changed count, keeps the promise of the FSInfo sector.
  twostate lemma InfoStays(fs: FATFS)
    requires old(fs.WindowOk()) && fs.WindowOk() && SameOutsideTables(fs.g, old(fs.View()), fs.View())
    requires Noted(old(fs.freeClst), old(fs.fsiFlag), fs.freeClst, fs.fsiFlag) && (old(fs.faulted) ==> fs.faulted)
    ensures old(InfoOk(fs)) ==> InfoOk(fs)
  {
    hide InfoOk, FsInfoPlace;
    if FsInfoPlace(fs.g) {
      InfoOutside(fs.g, old(fs.View()), fs.View());
    }
    InfoKept(fs);
  }

  ghost function UsedClusters(g: Geometry, f: seq<dword>): set<nat>
    requires |f| == g.nFatent
  {
    set c: nat | c < g.nFatent && 2 <= c && f[c] != 0
  }

  // What the free count becomes after freeing n clusters one by one.
  function Counted(g: Geometry, freeClst: dword, n: nat): int {
    if freeClst <= g.nFatent - 2 then freeClst + n else freeClst
  }

  // How far remove_chain has come: the clusters of the list up to index j are free.
  ghost predicate Removing(g: Geometry, f: seq<dword>, now: seq<dword>, ch: seq<nat>, at: nat, j: nat, clst: nat) {
    && at <= j <= |ch| && Freed(g, f, now, ch, at, j)
    && (if j < |ch| then clst == ch[j] else clst >= g.nFatent)
  }

  lemma RemoveStep(g: Geometry, f: seq<dword>, now: seq<dword>, ch: seq<nat>, at: nat, j: nat, clst: nat)
    requires Spelled(g, f, ch) && Removing(g, f, now, ch, at, j, clst) && j < |ch|
    ensures clst < |now| && now[clst] >= 2
    ensures Removing(g, f, now[clst := 0], ch, at, j + 1, now[clst])
  {
    FreeOne(g, f, now, ch, at, j);
    assert ch[j] !in ch[at..j];
    assert now[ch[j]] == f[ch[j]];
    assert j < |ch| - 1 ==> f[ch[j]] == ch[j + 1];
    assert g.IsCluster(ch[j]) && (j + 1 < |ch| ==> g.IsCluster(ch[j + 1]));
  }

  // One round of remove_chain: the successor of clst, which is marked free.
  method FreeCluster(fs: FATFS, obj: FFOBJID, clst: dword) returns (nxt: dword, res: FRESULT)
    requires fs.WindowOk() && fs.g.fsType != EXFAT && fs.g.IsCluster(clst)
    modifies fs`disk, fs`faulted, fs`wflag, fs`winsect, fs.win, fs`freeClst, fs`fsiFlag
    ensures fs.WindowOk() && SameOutsideFats(fs.g, old(fs.View()), fs.View())
    ensures res == OK ==> nxt == old(fs.Links())[clst] && nxt != BAD
    ensures res == OK && nxt != 0 ==> fs.Links() == old(fs.Links())[clst := 0]
    ensures res == OK && nxt != 0 ==> fs.freeClst == if old(fs.freeClst) < fs.g.nFatent - 2 then old(fs.freeClst) + 1 else old(fs.freeClst)
    ensures res == OK && nxt == 0 ==> fs.Links() == old(fs.Links()) && fs.freeClst == old(fs.freeClst)
    ensures res == INT_ERR ==> old(fs.Links())[clst] == BAD
    ensures res == OK || res == INT_ERR || (res == DISK_ERR && fs.faulted)
    ensures Noted(old(fs.freeClst), old(fs.fsiFlag), fs.freeClst, fs.fsiFlag)
    ensures old(fs.faulted) ==> fs.faulted
  {
    hide FatBytes, Overlaid, Mirrored, FatTable.Links, Raw;
    nxt := GetFat(fs, obj, clst);
    res := OK;
    if nxt == 0 {
      return;
    }
    if nxt == BAD {
      return nxt, INT_ERR;
    }
    if nxt == IO_ERROR {
      return nxt, DISK_ERR;
    }
    res := PutFat(fs, clst, 0);
    if res == OK && fs.freeClst < fs.g.nFatent - 2 {
      fs.freeClst := fs.freeClst + 1;
      fs.fsiFlag := Dirtied(fs.fsiFlag);
    }
  }

  // The list whose clusters from index at on remove_chain is to free, starting at clst,
  // and a free count with room for them.
  ghost predicate Removable(g: Geometry, f: seq<dword>, now: seq<dword>, ch: seq<nat>, at: nat, clst: nat, freeClst: dword) {
    && Spelled(g, f, ch) && at < |ch| && Removing(g, f, now, ch, at, at, clst)
    && (freeClst <= g.nFatent - 2 ==> freeClst + (|ch| - at) <= g.nFatent - 2)
  }

  ghost predicate Removed(g: Geometry, f: seq<dword>, now: seq<dword>, ch: seq<nat>, at: nat, freeClst: dword, freeNow: dword) {
    at < |ch| && Freed(g, f, now, ch, at, |ch|) && freeNow == Counted(g, freeClst, |ch| - at)
  }

  /** The loop of remove_chain on FAT12/16/32. It ends on any FAT, whatever its links are:
      every round turns a non-zero link into zero. */
  method FreeLinks(fs: FATFS, obj: FFOBJID, clst0: dword, ghost f: seq<dword>, ghost ch: seq<nat>, ghost at: nat)
    returns (res: FRESULT)
    requires fs.WindowOk() && fs.g.fsType != EXFAT && fs.g.IsCluster(clst0)
    modifies fs`disk, fs`faulted, fs`wflag, fs`winsect, fs.win, fs`freeClst, fs`fsiFlag
    ensures fs.WindowOk() && SameOutsideFats(fs.g, old(fs.View()), fs.View())
    ensures old(Removable(fs.g, f, fs.Links(), ch, at, clst0, fs.freeClst)) && res == OK ==>
              Removed(fs.g, f, fs.Links(), ch, at, old(fs.freeClst), fs.freeClst)
    ensures old(Removable(fs.g, f, fs.Links(), ch, at, clst0, fs.freeClst)) && res != OK ==> fs.faulted
    ensures res == OK || res == INT_ERR || (res == DISK_ERR && fs.faulted)
    ensures Noted(old(fs.freeClst), old(fs.fsiFlag), fs.freeClst, fs.fsiFlag)
    ensures old(fs.faulted) ==> fs.faulted
  {
    hide FatBytes, Overlaid, Mirrored, FatTable.Links, Raw, Spelled, Freed;
    ghost var ok := Removable(fs.g, f, fs.Links(), ch, at, clst0, fs.freeClst);
    var clst := clst0;
    ghost var j: nat := at;
    res := OK;
    while clst < fs.g.nFatent
      invariant fs.WindowOk() && SameOutsideFats(fs.g, old(fs.View()), fs.View()) && (old(fs.faulted) ==> fs.faulted)
      invariant res == OK && clst >= 2
      invariant Noted(old(fs.freeClst), old(fs.fsiFlag), fs.freeClst, fs.fsiFlag)
      invariant ok ==> Removing(fs.g, f, fs.Links(), ch, at, j, clst) && fs.freeClst == Counted(fs.g, old(fs.freeClst), j - at)
      decreases UsedClusters(fs.g, fs.Links())
    {
      ghost var now := fs.Links();
      if ok {
        RemoveStep(fs.g, f, now, ch, at, j, clst);
      }
      var nxt;
      nxt, res := FreeCluster(fs, obj, clst);
      if res != OK || nxt == 0 {
        return;
      }
      assert clst in UsedClusters(fs.g, now) && clst !in UsedClusters(fs.g, fs.Links());
      clst, j := nxt, j + 1;
    }
    if ok {
      RemovalEnds(fs.g, f, fs.Links(), ch, at, j, clst);
    }
  }

  lemma RemovalEnds(g: Geometry, f: seq<dword>, now: seq<dword>, ch: seq<nat>, at: nat, j: nat, clst: nat)
    requires Spelled(g, f, ch) && Removing(g, f, now, ch, at, j, clst) && clst >= g.nFatent
    ensures j == |ch|
  {
  }

  // pclst is the cluster before entry number at of the list, 0 for the first.
  predicate Predecessor(ch: seq<nat>, at: nat, pclst: nat) {
    at < |ch| && pclst == if at == 0 then 0 else ch[at - 1]
  }

  /** A call of remove_chain as f_truncate, f_open and f_unlink make it for a file. */
  ghost predicate RemovalOk(fs: FATFS, clst: nat, pclst: nat, key: nat, at: nat)
    reads fs, fs.win
  {
    && fs.Valid() && ListedAt(fs.chains, key, at, clst) && Predecessor(fs.chains[key], at, pclst)
    && forall c :: c in fs.chains[key][at..] ==> c !in fs.sys
  }

  lemma FreeBound(g: Geometry, chains: ClusterLists)
    requires g.nFatent > 2
    ensures |FreeClusters(g, chains)| <= g.nFatent - 2
  {
    var all := Below(g.nFatent);
    assert all == (all - {0, 1}) + {0, 1};
    assert |all - {0, 1}| == g.nFatent - 2;
    SubsetSize(FreeClusters(g, chains), all - {0, 1});
  }

  lemma SubsetSize<T>(s: set<T>, t: set<T>)
    requires s <= t
    ensures |s| <= |t|
  {
    assert t == s + (t - s);
  }

  lemma StartRemoving(g: Geometry, f: seq<dword>, now: seq<dword>, chains: ClusterLists, key: nat, at: nat, clst: nat, pclst: nat, free: dword)
    requires g.Ok() && Disjoint(g, chains) && FatAgrees(g, f, chains) && CountOk(g, chains, free)
    requires ListedAt(chains, key, at, clst) && Predecessor(chains[key], at, pclst)
    requires if pclst == 0 then now == f else pclst < |f| && |now| == |f| && now == f[pclst := now[pclst]] && now[pclst] >= g.nFatent
    ensures Removable(g, f, now, chains[key], at, clst, free)
  {
    hide Owned, FreeClusters;
    CutCount(g, chains, key, at);
    FreeBound(g, Cut(chains, key, at));
    assert chains[key][at..at] == [];
  }

  lemma RemovedList(g: Geometry, f: seq<dword>, now: seq<dword>, chains: ClusterLists, key: nat, at: nat, free: dword, freeNow: dword)
    requires g.Ok() && Disjoint(g, chains) && FatAgrees(g, f, chains) && CountOk(g, chains, free)
    requires key in chains && at < |chains[key]| && Removed(g, f, now, chains[key], at, free, freeNow)
    ensures Disjoint(g, Cut(chains, key, at)) && FatAgrees(g, now, Cut(chains, key, at)) && CountOk(g, Cut(chains, key, at), freeNow)
    ensures forall x :: Owned(Cut(chains, key, at), x) <==> Owned(chains, x) && x !in chains[key][at..]
  {
    hide Owned, FreeClusters, Spelled, Freed;
    CutCount(g, chains, key, at);
    CutDisjoint(g, chains, key, at);
    CutFat(g, f, now, chains, key, at);
  }

  /** remove_chain on FAT12/16/32. It ends on any FAT. On a valid volume, called for a cluster
      of a list and the one before it, it frees exactly the rest of the list. */
  method RemoveChainFat(fs: FATFS, obj: FFOBJID, clst: dword, pclst: dword, ghost key: nat, ghost at: nat) returns (res: FRESULT)
    requires fs.WindowOk() && fs.g.fsType != EXFAT
    modifies fs, fs.win
    ensures fs.WindowOk() && fs.sys == old(fs.sys) && SameOutsideFats(fs.g, old(fs.View()), fs.View())
    ensures !fs.g.IsCluster(clst) ==> res == INT_ERR && fs.Links() == old(fs.Links()) && fs.freeClst == old(fs.freeClst)
    ensures old(RemovalOk(fs, clst, pclst, key, at)) && res == OK ==> fs.Valid() && fs.chains == Cut(old(fs.chains), key, at)
    ensures old(RemovalOk(fs, clst, pclst, key, at)) && res != OK ==> fs.faulted
    ensures Noted(old(fs.freeClst), old(fs.fsiFlag), fs.freeClst, fs.fsiFlag)
    ensures old(InfoOk(fs)) ==> InfoOk(fs)
    ensures old(fs.faulted) ==> fs.faulted
  {
    hide FatBytes, Overlaid, Mirrored, FatTable.Links, Raw, Masked, Spelled, FreeClusters, Removable, Removed, Disjoint, FatAgrees, Owned, InfoOk;
    if clst < 2 || clst >= fs.g.nFatent {
      assert !RemovalOk(fs, clst, pclst, key, at) by {
        if RemovalOk(fs, clst, pclst, key, at) {
          ValidEntry(fs.g, fs.chains, key, at);
        }
      }
      return INT_ERR;
    }
    ghost var ok := RemovalOk(fs, clst, pclst, key, at);
    ghost var f, free, ch := fs.Links(), fs.freeClst, if ok then fs.chains[key] else [];
    LinkFits(fs.g, 0);
    if pclst != 0 {
      res := PutFat(fs, pclst, 0xFFFF_FFFF);
      if res != OK {
        if ok {
          ValidEntry(fs.g, fs.chains, key, at - 1);
        }
        SameFatsOutside(fs.g, old(fs.View()), fs.View());
        InfoStays(fs);
        return;
      }
    }
    if ok {
      StartRemoving(fs.g, f, fs.Links(), fs.chains, key, at, clst, pclst, free);
    }
    res := FreeLinks(fs, obj, clst, f, ch, at);
    if res == OK && ok {
      RemovedList(fs.g, f, fs.Links(), fs.chains, key, at, free, fs.freeClst);
      fs.chains := Cut(fs.chains, key, at);
    }
    SameFatsOutside(fs.g, old(fs.View()), fs.View());
    InfoStays(fs);
  }

  lemma ValidEntry(g: Geometry, chains: ClusterLists, key: nat, i: nat)
    requires Disjoint(g, chains) && key in chains && i < |chains[key]|
    ensures g.IsCluster(chains[key][i])
  {
    assert ClusterList(g, chains[key]);
  }
}
