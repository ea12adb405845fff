/** f_lseek without a link map, and f_sync's part in writing deferred links and data. */
module Seek {
  import opened Arith
  import opened Bytes
  import opened Layout
  import opened FatTable
  import opened Chains
  import opened Deferred
  import opened Volume
  import opened Info
  import opened ChainOps
  import opened FileData
  import opened File

  // Number of the first byte of cluster i of a file.
  function Start(g: Geometry, i: nat): nat {
    SECTOR_SIZE * (g.csize * i)
  }

  // Bytes per cluster.
  function ClusterBytes(g: Geometry): nat {
    g.csize * SECTOR_SIZE
  }

  lemma StartNext(g: Geometry, i: nat)
    ensures Start(g, i + 1) == Start(g, i) + ClusterBytes(g)
  {
    MulSucc(g.csize, i);
  }

  lemma StartIsMultiple(g: Geometry, i: nat)
    ensures Start(g, i) == ClusterBytes(g) * i
  {
    MulAssoc(SECTOR_SIZE, g.csize, i);
  }

  // Bytes Start(i) .. Start(i)+bytes-1 are those of cluster i.
  lemma IndexInCluster(g: Geometry, i: nat, d: nat)
    requires g.csize > 0 && d < ClusterBytes(g)
    ensures ClusterIndex(g, Start(g, i) + d) == i
    ensures (Start(g, i) + d) / SECTOR_SIZE == g.csize * i + d / SECTOR_SIZE && d / SECTOR_SIZE < g.csize
    ensures (Start(g, i) + d) % SECTOR_SIZE == d % SECTOR_SIZE
  {
    DivAdd(d, SECTOR_SIZE, g.csize * i);
    MulLtInv(SECTOR_SIZE, d / SECTOR_SIZE, g.csize);
    DivUnique(g.csize * i + d / SECTOR_SIZE, g.csize, i, d / SECTOR_SIZE);
  }

  lemma IndexIsQuotient(g: Geometry, x: nat)
    requires g.csize > 0
    ensures ClusterBytes(g) > 0 && ClusterIndex(g, x) == x / ClusterBytes(g)
    ensures Start(g, ClusterIndex(g, x)) <= x < Start(g, ClusterIndex(g, x)) + ClusterBytes(g)
  {
    DivDiv(x, SECTOR_SIZE, g.csize);
    StartIsMultiple(g, ClusterIndex(g, x));
  }

  /** While f_lseek is at cluster i of the list: pending links only at the end, and a size that
      fits a contiguous object or is about to be raised. */
  ghost predicate WalkSized(g: Geometry, a: Alloc, ch: seq<nat>, size: nat, i: nat)
    requires g.csize > 0
  {
    g.fsType == EXFAT ==>
      && (a.nFrag != 0 ==> i == |ch| - 1)
      && (a.stat == 2 ==> (size > 0 && ClusterIndex(g, size - 1) == |ch| - 1) || (i == |ch| - 1 && size <= Start(g, i)))
  }

  /** f_lseek has reached cluster i of the list, which is clst. */
  ghost predicate Walking(fp: FIL, clst: nat, i: nat)
    reads fp`sect, fp`sq, fp`dirty, fp`err, fp.obj, fp.fs, fp.fs.win, fp.buf
    ensures Walking(fp, clst, i) ==> fp.Base() && fp.Tracked() && fp.err == OK
  {
    && fp.Base() && fp.Tracked() && fp.err == OK
    && i < |fp.List()| && clst == fp.List()[i] && Holds(fp.fs.g, fp.List(), fp.obj.objsize)
    && WalkSized(fp.fs.g, fp.obj.Status(), fp.List(), fp.obj.objsize, i)
    && BufferPlaced(fp.fs.g, fp.List(), fp.sect, fp.sq) && Buffered(fp.fs.View(), fp.sect, fp.dirty, fp.buf[..])
  }

  /** The first size0 bytes of the file are d. */
  ghost predicate Keeps(fp: FIL, size0: nat, d: seq<byte>)
    requires fp.Base() && fp.Tracked()
    reads fp`sect, fp`dirty, fp.obj, fp.fs, fp.fs.win, fp.buf
  {
    Holds(fp.fs.g, fp.List(), size0) && Content(fp.fs.g, fp.View(), fp.List(), size0) == d
  }

  lemma WalkingParts(fp: FIL, clst: nat, i: nat)
    requires Walking(fp, clst, i)
    ensures ListedAt(fp.fs.chains, fp.obj.sclust, i, clst) && ClusterList(fp.fs.g, fp.List())
    ensures BufferPlaced(fp.fs.g, fp.List(), fp.sect, fp.sq) && Buffered(fp.fs.View(), fp.sect, fp.dirty, fp.buf[..])
    ensures fp.fs.g.fsType == EXFAT ==> BitmapIsMeta(fp.fs.g, fp.fs.sys)
    ensures WalkSized(fp.fs.g, fp.obj.Status(), fp.List(), fp.obj.objsize, i) && Holds(fp.fs.g, fp.List(), fp.obj.objsize)
  {
  }

  // f_lseek: on the way to the next cluster a file being written takes in this one.
  lemma StretchedAnswers(g: Geometry, a: Alloc, ch: seq<nat>, size: nat, i: nat)
    requires g.Ok() && ClusterList(g, ch) && WalkSized(g, a, ch, size, i) && i < |ch|
    requires g.fsType == EXFAT ==> a.sclust == ch[0]
    ensures var s := Larger(Start(g, i + 1), size);
            Answers(g, a.(objsize := s), ch, i) && (Holds(g, ch, size) ==> Holds(g, ch, s))
  {
    StartNext(g, i);
    IndexInCluster(g, i, ClusterBytes(g) - 1);
    MulLe(g.csize, i + 1, |ch|);
    if g.fsType == EXFAT && a.stat == 2 && size > 0 && ClusterIndex(g, size - 1) == |ch| - 1 && size < Start(g, i + 1) {
      IndexIsQuotient(g, size - 1);
      MulLtInv(SECTOR_SIZE, g.csize * ClusterIndex(g, size - 1), g.csize * (i + 1));
      MulLtInv(g.csize, ClusterIndex(g, size - 1), i + 1);
    }
  }

  // Having moved on to cluster i + 1, which may be new.
  lemma WalkedOn(g: Geometry, a: Alloc, b: Alloc, ch: seq<nat>, now: seq<nat>, size: nat, i: nat)
    requires g.csize > 0 && WalkSized(g, a, ch, size, i) && Holds(g, ch, size) && i < |ch|
    requires g.fsType == EXFAT && a.stat == 2 ==> size > 0 && ClusterIndex(g, size - 1) == |ch| - 1
    requires if i + 1 < |ch| then now == ch && b == a else |now| == i + 2 && ch <= now
    ensures WalkSized(g, b, now, size, i + 1) && Holds(g, now, size)
  {
    HoldsPrefix(g, ch, now, size);
  }

  // f_lseek: a file being written is at least as long as the clusters passed.
  method Stretch(fp: FIL, ghost clst: nat, ghost i: nat, ghost size0: nat, ghost d: seq<byte>)
    requires Walking(fp, clst, i) && Keeps(fp, size0, d) && fp.fptr == Start(fp.fs.g, i + 1) && size0 <= fp.obj.objsize
    modifies fp`modified, fp.obj`objsize
    ensures fp.obj.objsize == Larger(fp.fptr, old(fp.obj.objsize))
    ensures fp.Base() && fp.Tracked() && Keeps(fp, size0, d) && Holds(fp.fs.g, fp.List(), fp.obj.objsize)
    ensures Answers(fp.fs.g, fp.obj.Status(), fp.List(), i)
    ensures WalkSized(fp.fs.g, fp.obj.Status(), fp.List(), fp.obj.objsize, i) && size0 <= fp.obj.objsize
    ensures old(fp.modified) || fp.obj.objsize > old(fp.obj.objsize) ==> fp.modified
  {
    hide FatTable.Links, FatTable.Bits, FatBytes, BitmapBytes, Mirrored, Overlaid, FatAgrees, BitsAgree, SectorOf, Denotes, FreeClusters, Owned;
    hide Content, Buffered, BufferPlaced, Geometry.Ok, ClusterList, Start, ClusterIndex, Holds;
    WalkingParts(fp, clst, i);
    StartOfList(fp);
    StretchedAnswers(fp.fs.g, fp.obj.Status(), fp.List(), fp.obj.objsize, i);
    StretchedSize(fp.fs.g, fp.obj.Status(), fp.List(), fp.obj.objsize, i);
    DenotesAnySize(fp.fs.g, fp.fs.Links(), fp.obj.Status(), fp.List(), Larger(fp.fptr, fp.obj.objsize));
    if fp.fptr > fp.obj.objsize {
      fp.obj.objsize := fp.fptr;
      fp.modified := true;
    }
  }

  lemma StartOfList(fp: FIL)
    requires fp.Base() && fp.Tracked()
    ensures |fp.List()| > 0 && fp.List()[0] == fp.obj.sclust
  {
    hide FATFS.TableOk, FATFS.WindowOk, PlainData;
    TrackedList(fp.fs, fp.obj, fp.obj.sclust);
  }

  lemma StretchedSize(g: Geometry, a: Alloc, ch: seq<nat>, size: nat, i: nat)
    requires g.Ok() && WalkSized(g, a, ch, size, i) && i < |ch| && ClusterList(g, ch)
    requires g.fsType == EXFAT ==> a.sclust == ch[0]
    ensures var s := Larger(Start(g, i + 1), size); WalkSized(g, a.(objsize := s), ch, s, i)
  {
    StretchedAnswers(g, a, ch, size, i);
  }

  // f_lseek, cluster following in write mode: the next cluster, allocated if need be.
  method FollowOrGrow(fp: FIL, clst: dword, ghost i: nat, ghost size0: nat, ghost d: seq<byte>) returns (next: dword)
    requires fp.Base() && fp.Tracked() && fp.err == OK && ListedAt(fp.fs.chains, fp.obj.sclust, i, clst)
    requires Answers(fp.fs.g, fp.obj.Status(), fp.List(), i) && Holds(fp.fs.g, fp.List(), fp.obj.objsize)
    requires WalkSized(fp.fs.g, fp.obj.Status(), fp.List(), fp.obj.objsize, i) && Keeps(fp, size0, d)
    requires BufferPlaced(fp.fs.g, fp.List(), fp.sect, fp.sq) && Buffered(fp.fs.View(), fp.sect, fp.dirty, fp.buf[..])
    modifies fp.fs, fp.fs.win, fp.obj`stat, fp.obj`nCont, fp.obj`nFrag
    ensures fp.fs.WindowOk() && fp.fs.sys == old(fp.fs.sys) && TablesOnly(fp.fs.g, fp.List(), old(fp.fs.View()), fp.fs.View())
    ensures fp.fs.chains == old(fp.fs.chains) || ListGrew(old(fp.fs.chains), fp.fs.chains, fp.obj.sclust)
    ensures old(fp.List()) <= fp.List()
    ensures next == IO_ERROR ==> fp.fs.faulted
    ensures next != BAD
    ensures next != IO_ERROR ==> Walking(fp, if next == 0 then clst else next, if next == 0 then i else i + 1)
    ensures next != IO_ERROR ==> Keeps(fp, size0, d)
    ensures next == 0 ==> FreeClusters(fp.fs.g, fp.fs.chains) == {} && |fp.List()| == i + 1
    ensures next != IO_ERROR && next != 0 ==> fp.fs.g.IsCluster(next)
    ensures old(fp.fs.faulted) ==> fp.fs.faulted
    ensures Noted(old(fp.fs.freeClst), old(fp.fs.fsiFlag), fp.fs.freeClst, fp.fs.fsiFlag)
  {
    hide FatTable.Links, FatTable.Bits, FatBytes, BitmapBytes, Mirrored, Overlaid, FatAgrees, BitsAgree, SectorOf, ClusterIndex, Denotes, FreeClusters, Owned;
    hide FATFS.TableOk, FATFS.ListsOk, Content, Buffered, BufferPlaced, Holds, WalkSized, ClusterList, Geometry.Ok, Answers, PlainData;
    ghost var g, key, ch, a, v, size := fp.fs.g, fp.obj.sclust, fp.List(), fp.obj.Status(), fp.fs.View(), fp.obj.objsize;
    TrackedList(fp.fs, fp.obj, key);
    BaseParts(fp);
    ValidEntry(g, fp.fs.chains, key, i);
    next := CreateChain(fp.fs, fp.obj, clst, key, i);
    if next != IO_ERROR {
      if next != 0 {
        GrownPlain(g, old(fp.fs.chains), fp.fs.chains, fp.fs.sys, key, next);
        AnswersSize(g, a, ch, i);
        WalkedOn(g, a, fp.obj.Status(), ch, fp.List(), size, i);
        TrackedList(fp.fs, fp.obj, key);
        WalkedPlaced(g, ch, fp.List(), fp.sect, fp.sq);
      }
      BufferKept(g, fp.fs.sys, v, fp.fs.View(), ch, fp.sect, fp.sq, fp.dirty, fp.buf[..]);
      DataKept(g, fp.fs.sys, v, fp.fs.View(), ch, fp.List(), size0, fp.dirty, fp.sect, fp.buf[..]);
    }
  }

  lemma AnswersSize(g: Geometry, a: Alloc, ch: seq<nat>, i: nat)
    requires g.csize > 0 && Answers(g, a, ch, i)
    ensures g.fsType == EXFAT && a.stat == 2 ==> a.objsize > 0 && ClusterIndex(g, a.objsize - 1) == |ch| - 1
  {
  }

  lemma WalkedPlaced(g: Geometry, ch: seq<nat>, now: seq<nat>, sect: nat, sq: nat)
    requires BufferPlaced(g, ch, sect, sq) && ch <= now
    ensures BufferPlaced(g, now, sect, sq)
  {
    if sect != 0 {
      SectorOfPrefix(g, ch, now, sq);
    }
  }

  // f_lseek, cluster following in read mode.
  method FollowChain(fp: FIL, clst: dword, ghost i: nat, ghost size0: nat, ghost d: seq<byte>) returns (next: dword)
    requires Walking(fp, clst, i) && Keeps(fp, size0, d) && Start(fp.fs.g, i + 1) < fp.obj.objsize
    modifies fp.fs`disk, fp.fs`faulted, fp.fs`wflag, fp.fs`winsect, fp.fs.win
    ensures fp.fs.WindowOk() && TablesOnly(fp.fs.g, fp.List(), old(fp.fs.View()), fp.fs.View())
    ensures next == IO_ERROR ==> fp.fs.faulted
    ensures next != IO_ERROR ==> fp.fs.g.IsCluster(next) && Walking(fp, next, i + 1) && Keeps(fp, size0, d)
    ensures old(fp.fs.faulted) ==> fp.fs.faulted
  {
    hide FatTable.Links, FatTable.Bits, FatBytes, BitmapBytes, Mirrored, Overlaid, FatAgrees, BitsAgree, SectorOf, ClusterIndex, Denotes, FreeClusters, Owned;
    hide FATFS.TableOk, FATFS.ListsOk, Content, Buffered, BufferPlaced, Holds, WalkSized, ClusterList, Geometry.Ok, Answers, PlainData, Start;
    ghost var g, ch, v := fp.fs.g, fp.List(), fp.fs.View();
    WalkingParts(fp, clst, i);
    BaseParts(fp);
    StartOfList(fp);
    InsideAnswers(g, fp.obj.Status(), ch, fp.obj.objsize, i);
    next := NextOrEnd(fp.fs, fp.obj, clst, fp.obj.sclust, i);
    SameViewOutside(g, v, fp.fs.View());
    if next != IO_ERROR {
      WalkedOn(g, fp.obj.Status(), fp.obj.Status(), ch, ch, fp.obj.objsize, i);
      BufferKept(g, fp.fs.sys, v, fp.fs.View(), ch, fp.sect, fp.sq, fp.dirty, fp.buf[..]);
      DataKept(g, fp.fs.sys, v, fp.fs.View(), ch, ch, size0, fp.dirty, fp.sect, fp.buf[..]);
    }
  }

  // Inside the file there is a next cluster and get_fat finds it.
  lemma InsideAnswers(g: Geometry, a: Alloc, ch: seq<nat>, size: nat, i: nat)
    requires g.csize > 0 && WalkSized(g, a, ch, size, i) && Holds(g, ch, size) && Start(g, i + 1) < size && i < |ch|
    requires a.objsize == size && (g.fsType == EXFAT ==> a.sclust == ch[0])
    ensures i + 1 < |ch| && Answers(g, a, ch, i)
    ensures g.fsType == EXFAT && a.stat == 2 ==> size > 0 && ClusterIndex(g, size - 1) == |ch| - 1
  {
    StartNext(g, i);
    MulLtInv(SECTOR_SIZE, g.csize * (i + 1), g.csize * |ch|);
    MulLtInv(g.csize, i + 1, |ch|);
  }

  // f_lseek, one round of the cluster following loop.
  method FollowOne(fp: FIL, clst: dword, ghost i: nat, ghost size0: nat, ghost d: seq<byte>) returns (next: dword)
    requires Walking(fp, clst, i) && Keeps(fp, size0, d) && fp.fptr == Start(fp.fs.g, i + 1) && size0 <= fp.obj.objsize
    requires !fp.canWrite ==> fp.fptr < fp.obj.objsize
    modifies fp`modified, fp.fs, fp.fs.win, fp.obj
    ensures fp.fs.WindowOk() && fp.fs.sys == old(fp.fs.sys) && TablesOnly(fp.fs.g, fp.List(), old(fp.fs.View()), fp.fs.View())
    ensures fp.fs.chains == old(fp.fs.chains) || ListGrew(old(fp.fs.chains), fp.fs.chains, fp.obj.sclust)
    ensures old(fp.List()) <= fp.List() && fp.obj.sclust == old(fp.obj.sclust)
    ensures next == IO_ERROR ==> fp.fs.faulted
    ensures next != BAD
    ensures next != IO_ERROR ==> Walking(fp, if next == 0 then clst else next, if next == 0 then i else i + 1)
    ensures next != IO_ERROR ==> Keeps(fp, size0, d) && size0 <= fp.obj.objsize
    ensures next != IO_ERROR ==> fp.obj.objsize == if fp.canWrite then Larger(fp.fptr, old(fp.obj.objsize)) else old(fp.obj.objsize)
    ensures next == 0 ==> fp.canWrite && FreeClusters(fp.fs.g, fp.fs.chains) == {} && |fp.List()| == i + 1
    ensures next != IO_ERROR && next != 0 ==> fp.fs.g.IsCluster(next)
    ensures old(fp.fs.faulted) ==> fp.fs.faulted
    ensures old(fp.modified) || fp.obj.objsize > old(fp.obj.objsize) ==> fp.modified
    ensures Noted(old(fp.fs.freeClst), old(fp.fs.fsiFlag), fp.fs.freeClst, fp.fs.fsiFlag)
  {
    hide FatTable.Links, FatTable.Bits, FatBytes, BitmapBytes, Mirrored, Overlaid, FatAgrees, BitsAgree, SectorOf, ClusterIndex, Denotes, FreeClusters, Owned;
    hide FATFS.TableOk, FATFS.ListsOk, Content, Buffered, BufferPlaced, Holds, WalkSized, ClusterList, Geometry.Ok, Answers, PlainData, Start, ListGrew, FATFS.WindowOk, FATFS.Valid;
    WalkingParts(fp, clst, i);
    if fp.canWrite {
      Stretch(fp, clst, i, size0, d);
      next := FollowOrGrow(fp, clst, i, size0, d);
    } else {
      next := FollowChain(fp, clst, i, size0, d);
    }
  }

  // f_lseek, cluster following loop: up to the cluster with the byte before the target, or to
  // the end of the list when no cluster is free. rem is the distance left in that cluster.
  method WalkLoop(fp: FIL, clst0: dword, rem0: nat, ghost i0: nat, ghost size0: nat, ghost d: seq<byte>)
    returns (res: FRESULT, clst: dword, rem: nat, ghost i: nat)
    requires Walking(fp, clst0, i0) && Keeps(fp, size0, d) && fp.fptr == Start(fp.fs.g, i0) && fp.clust == clst0
    requires 0 < rem0 && size0 <= fp.obj.objsize && (!fp.canWrite ==> fp.fptr + rem0 <= fp.obj.objsize)
    modifies fp`fptr, fp`clust, fp`modified, fp.fs, fp.fs.win, fp.obj
    ensures fp.fs.WindowOk() && fp.fs.sys == old(fp.fs.sys) && SameElsewhere(fp.fs.g, fp.List(), old(fp.fs.View()), fp.fs.View())
    ensures fp.fs.chains == old(fp.fs.chains) || ListGrew(old(fp.fs.chains), fp.fs.chains, fp.obj.sclust)
    ensures old(fp.List()) <= fp.List() && fp.obj.sclust == old(fp.obj.sclust)
    ensures res == OK ==> Walking(fp, fp.clust, i) && Keeps(fp, size0, d) && size0 <= fp.obj.objsize
    ensures res == OK ==> old(fp.obj.objsize) <= fp.obj.objsize && (fp.obj.objsize == old(fp.obj.objsize) || fp.obj.objsize <= fp.fptr)
    ensures res == OK && clst != 0 ==> clst == fp.clust && fp.fptr == Start(fp.fs.g, i) && 0 < rem <= ClusterBytes(fp.fs.g)
    ensures res == OK && clst != 0 ==> fp.fptr + rem == old(fp.fptr) + rem0
    ensures res == OK && clst == 0 ==> fp.canWrite && rem == 0 && |fp.List()| == i + 1 && fp.fptr == Start(fp.fs.g, i + 1)
    ensures res == OK && clst == 0 ==> FreeClusters(fp.fs.g, fp.fs.chains) == {} && fp.fptr < old(fp.fptr) + rem0
    ensures res != OK ==> res == DISK_ERR && fp.fs.faulted
    ensures old(fp.fs.faulted) ==> fp.fs.faulted
    ensures old(fp.modified) || fp.obj.objsize > old(fp.obj.objsize) ==> fp.modified
    ensures Noted(old(fp.fs.freeClst), old(fp.fs.fsiFlag), fp.fs.freeClst, fp.fs.fsiFlag)
  {
    hide FatTable.Links, FatTable.Bits, FatBytes, BitmapBytes, Mirrored, Overlaid, FatAgrees, BitsAgree, SectorOf, ClusterIndex, Denotes, FreeClusters, Owned;
    hide FATFS.TableOk, FATFS.ListsOk, Content, Buffered, BufferPlaced, Holds, WalkSized, ClusterList, Geometry.Ok, Answers, PlainData, Start, ListGrew;
    hide FATFS.WindowOk, FATFS.Valid, SameElsewhere, ClusterBytes, Keeps, Noted;
    res, clst, rem, i := OK, clst0, rem0, i0;
    ghost var v, chains, p := fp.fs.View(), fp.fs.chains, fp.fptr + rem0;
    SameElsewhereRefl(fp.fs.g, fp.List(), v);
    WalkingPositive(fp, clst, i);
    NotedNothing(fp.fs.freeClst, fp.fs.fsiFlag);
    while rem > ClusterBytes(fp.fs.g)
      invariant res == OK && fp.fs.sys == old(fp.fs.sys) && fp.obj.sclust == old(fp.obj.sclust)
      invariant clst != 0 && Walking(fp, clst, i) && Keeps(fp, size0, d) && fp.fptr == Start(fp.fs.g, i) && fp.clust == clst
      invariant 0 < rem && fp.fptr + rem == p && size0 <= fp.obj.objsize && (!fp.canWrite ==> p <= fp.obj.objsize)
      invariant old(fp.obj.objsize) <= fp.obj.objsize && (fp.obj.objsize == old(fp.obj.objsize) || fp.obj.objsize <= fp.fptr)
      invariant fp.fs.chains == chains || ListGrew(chains, fp.fs.chains, fp.obj.sclust)
      invariant SameElsewhere(fp.fs.g, fp.List(), v, fp.fs.View()) && old(fp.List()) <= fp.List()
      invariant old(fp.fs.faulted) ==> fp.fs.faulted
      invariant old(fp.modified) || fp.obj.objsize > old(fp.obj.objsize) ==> fp.modified
      invariant Noted(old(fp.fs.freeClst), old(fp.fs.fsiFlag), fp.fs.freeClst, fp.fs.fsiFlag)
      decreases rem
    {
      ghost var ch, u, grown := fp.List(), fp.fs.View(), fp.fs.chains;
      ghost var free, flag := fp.fs.freeClst, fp.fs.fsiFlag;
      StartNext(fp.fs.g, i);
      WalkingPositive(fp, clst, i);
      rem := rem - ClusterBytes(fp.fs.g);
      fp.fptr := fp.fptr + ClusterBytes(fp.fs.g);
      var next := FollowOne(fp, clst, i, size0, d);
      NotedTwice(old(fp.fs.freeClst), old(fp.fs.fsiFlag), free, flag, fp.fs.freeClst, fp.fs.fsiFlag);
      OutsideIsElsewhere(fp.fs.g, fp.List(), u, fp.fs.View());
      RoundFrame(fp, chains, grown, fp.obj.sclust, v, u, ch);
      if next == IO_ERROR {
        return DISK_ERR, clst, rem, i;
      }
      if next == 0 {
        return OK, next, 0, i;
      }
      clst, i := next, i + 1;
      fp.clust := clst;
    }
  }

  lemma WalkingPositive(fp: FIL, clst: nat, i: nat)
    requires Walking(fp, clst, i)
    ensures clst != 0 && ClusterBytes(fp.fs.g) > 0
  {
    hide FATFS.TableOk, PlainData;
    TrackedList(fp.fs, fp.obj, fp.obj.sclust);
  }

  // The cursor stands r bytes into cluster i, behind its first byte.
  lemma Landing(g: Geometry, a: Alloc, ch: seq<nat>, size: nat, i: nat, r: nat, p: nat)
    requires g.csize > 0 && WalkSized(g, a, ch, size, i) && Holds(g, ch, size) && i < |ch| && 0 < r <= ClusterBytes(g)
    requires p == Start(g, i) + r
    ensures var s := Larger(p, size);
            Holds(g, ch, s) && ClusterIndex(g, p - 1) == i && Sized(g, a.(objsize := s), ch, s, i)
  {
    IndexInCluster(g, i, r - 1);
    StartNext(g, i);
    MulLe(g.csize, i + 1, |ch|);
    if size < p && size > 0 && ClusterIndex(g, size - 1) == |ch| - 1 {
      IndexIsQuotient(g, size - 1);
      MulLtInv(SECTOR_SIZE, g.csize * ClusterIndex(g, size - 1), g.csize * (i + 1));
      MulLtInv(g.csize, ClusterIndex(g, size - 1), i + 1);
    }
  }

  lemma LandingSector(g: Geometry, ch: seq<nat>, i: nat, r: nat, p: nat, nsect: nat)
    requires g.csize > 0 && i < |ch| && 0 < r <= ClusterBytes(g) && p == Start(g, i) + r
    requires r % SECTOR_SIZE != 0 ==> nsect == g.FirstSector(ch[i]) + r / SECTOR_SIZE
    ensures p % SECTOR_SIZE == r % SECTOR_SIZE
    ensures r % SECTOR_SIZE != 0 ==> RunOf(g, ch, p / SECTOR_SIZE, 1, nsect)
  {
    DivAdd(r, SECTOR_SIZE, g.csize * i);
    if r % SECTOR_SIZE != 0 {
      IndexInCluster(g, i, r);
      BlockUnique(p / SECTOR_SIZE, g.csize, i, r / SECTOR_SIZE);
      MulLe(g.csize, i + 1, |ch|);
      MulSucc(g.csize, i);
    }
  }

  // f_lseek: make the buffer stand for the sector that the cursor is inside of.
  method Refill(fp: FIL, nsect: nat, ghost i: nat)
    returns (res: FRESULT)
    requires fp.Base() && fp.Tracked() && fp.err == OK && 0 < fp.fptr <= fp.obj.objsize && Holds(fp.fs.g, fp.List(), fp.obj.objsize)
    requires ClusterIndex(fp.fs.g, fp.fptr - 1) == i < |fp.List()| && fp.clust == fp.List()[i]
    requires Sized(fp.fs.g, fp.obj.Status(), fp.List(), fp.obj.objsize, i)
    requires BufferPlaced(fp.fs.g, fp.List(), fp.sect, fp.sq) && Buffered(fp.fs.View(), fp.sect, fp.dirty, fp.buf[..])
    requires fp.fptr % SECTOR_SIZE != 0 ==> RunOf(fp.fs.g, fp.List(), fp.fptr / SECTOR_SIZE, 1, nsect)
    modifies fp.fs`disk, fp.fs`faulted, fp`dirty, fp`sect, fp`sq, fp.buf
    ensures fp.fs.WindowOk() && SameElsewhere(fp.fs.g, fp.List(), old(fp.fs.View()), fp.fs.View())
    ensures res == OK ==> fp.Ok() && !fp.Empty() && fp.View() == old(fp.View())
    ensures res != OK ==> res == DISK_ERR && fp.fs.faulted
    ensures old(fp.fs.faulted) ==> fp.fs.faulted
  {
    hide FatTable.Links, FatTable.Bits, FatBytes, BitmapBytes, Mirrored, Overlaid, FatAgrees, BitsAgree, SectorOf, ClusterIndex, Denotes;
    hide FATFS.TableOk, FATFS.ListsOk, Content, Holds, PlainData, SameElsewhere, FATFS.WindowOk, FATFS.Valid, Sized, RunOf;
    TrackedList(fp.fs, fp.obj, fp.obj.sclust);
    BaseParts(fp);
    if fp.fptr % SECTOR_SIZE != 0 {
      RunSector(fp.fs.g, fp.List(), fp.fptr / SECTOR_SIZE, nsect, fp.sect, fp.sq);
    }
    res := OK;
    if fp.fptr % SECTOR_SIZE != 0 && nsect != fp.sect {
      res := FlushBuffer(fp);
      if res != OK {
        return;
      }
      res := LoadBuffer(fp, nsect, fp.fptr / SECTOR_SIZE);
      if res != OK {
        return;
      }
      CleanView(fp);
      fp.sect := nsect;
      fp.sq := fp.fptr / SECTOR_SIZE;
      CleanView(fp);
    } else {
      SameElsewhereRefl(fp.fs.g, fp.List(), fp.fs.View());
    }
  }

  lemma RunSector(g: Geometry, ch: seq<nat>, q: nat, nsect: nat, sect: nat, sq: nat)
    requires g.Ok() && ClusterList(g, ch) && RunOf(g, ch, q, 1, nsect) && BufferPlaced(g, ch, sect, sq)
    ensures nsect > 0 && BufferPlaced(g, ch, nsect, q) && (nsect == sect ==> sq == q)
  {
    hide ClusterList, Geometry.Ok, SectorOf;
    SectorInCluster(g, ch, q);
    if nsect == sect {
      SectorsDistinct(g, ch, q, sq);
    }
  }

  /** A file of at least size0 bytes is stretched to at least fptr bytes. */
  lemma KeptPrefix(g: Geometry, v: seq<Sector>, ch: seq<nat>, size0: nat, size: nat)
    requires g.Ok() && |v| == g.total && ClusterList(g, ch) && Holds(g, ch, size) && size0 <= size
    ensures Holds(g, ch, size0) && Content(g, v, ch, size0) == Content(g, v, ch, size)[..size0]
  {
    hide ClusterList, Geometry.Ok;
    assert Content(g, v, ch, size0) == Content(g, v, ch, size)[..size0];
  }

  // clst2sect of a cluster of the list.
  lemma ClusterSector(g: Geometry, ch: seq<nat>, i: nat)
    requires g.Ok() && ClusterList(g, ch) && i < |ch|
    ensures 0 < g.ToSector(ch[i]) == g.FirstSector(ch[i])
  {
    ClusterBounds(g, ch[i]);
  }

  lemma BytesModSector(g: Geometry)
    ensures ClusterBytes(g) % SECTOR_SIZE == 0
  {
    DivUnique(ClusterBytes(g), SECTOR_SIZE, g.csize, 0);
  }

  // f_lseek, behind the cluster following loop: the cursor moves on by rem bytes and the file
  // grows up to it; r is the distance of the cursor from the start of its cluster.
  method MoveEnd(fp: FIL, rem: nat, ghost i: nat, ghost r: nat, ghost size0: nat, ghost d: seq<byte>)
    requires Walking(fp, fp.clust, i) && Keeps(fp, size0, d) && size0 <= fp.obj.objsize
    requires 0 < r <= ClusterBytes(fp.fs.g) && fp.fptr + rem == Start(fp.fs.g, i) + r
    modifies fp`fptr, fp`modified, fp.obj`objsize
    ensures fp.fptr == old(fp.fptr) + rem && fp.obj.objsize == Larger(fp.fptr, old(fp.obj.objsize))
    ensures fp.Base() && fp.Tracked() && Keeps(fp, size0, d) && 0 < fp.fptr && Holds(fp.fs.g, fp.List(), fp.obj.objsize)
    ensures ClusterIndex(fp.fs.g, fp.fptr - 1) == i < |fp.List()| && fp.clust == fp.List()[i]
    ensures Sized(fp.fs.g, fp.obj.Status(), fp.List(), fp.obj.objsize, i)
    ensures old(fp.modified) || fp.obj.objsize > old(fp.obj.objsize) ==> fp.modified
  {
    hide FatTable.Links, FatTable.Bits, FatBytes, BitmapBytes, Mirrored, Overlaid, FatAgrees, BitsAgree, SectorOf, ClusterIndex, Denotes;
    hide FATFS.TableOk, FATFS.ListsOk, Content, Holds, PlainData, FATFS.WindowOk, FATFS.Valid, Sized, Start, WalkSized, BufferPlaced, Buffered;
    WalkingParts(fp, fp.clust, i);
    Landing(fp.fs.g, fp.obj.Status(), fp.List(), fp.obj.objsize, i, r, fp.fptr + rem);
    DenotesAnySize(fp.fs.g, fp.fs.Links(), fp.obj.Status(), fp.List(), Larger(fp.fptr + rem, fp.obj.objsize));
    fp.fptr := fp.fptr + rem;
    if fp.fptr > fp.obj.objsize {
      fp.obj.objsize := fp.fptr;
      fp.modified := true;
    }
  }

  // f_lseek: the sector rem bytes into cluster clst.
  method SectorBehind(g: Geometry, clst: dword, rem: nat, ghost ch: seq<nat>, ghost i: nat, ghost r: nat, ghost p: nat)
    returns (res: FRESULT, nsect: nat)
    requires g.Ok() && ClusterList(g, ch) && i < |ch| && 0 < r <= ClusterBytes(g) && p + rem == Start(g, i) + r
    requires if clst == 0 then rem == 0 && r == ClusterBytes(g) else clst == ch[i] && r == rem
    ensures res == OK
    ensures (p + rem) % SECTOR_SIZE != 0 ==> RunOf(g, ch, (p + rem) / SECTOR_SIZE, 1, nsect)
  {
    hide Start, RunOf, ClusterList, Geometry.Ok;
    ClusterSector(g, ch, i);
    BytesModSector(g);
    res, nsect := OK, 0;
    if rem % SECTOR_SIZE != 0 {
      nsect := g.ToSector(clst);
      if nsect == 0 {
        return INT_ERR, nsect;
      }
      nsect := nsect + rem / SECTOR_SIZE;
    }
    LandingSector(g, ch, i, r, p + rem, nsect);
  }

  // f_lseek, behind the cluster following loop.
  method Arrive(fp: FIL, clst: dword, rem: nat, ghost i: nat, ghost r: nat, ghost size0: nat, ghost d: seq<byte>)
    returns (res: FRESULT)
    requires Walking(fp, fp.clust, i) && Keeps(fp, size0, d) && size0 <= fp.obj.objsize
    requires 0 < r <= ClusterBytes(fp.fs.g) && fp.fptr + rem == Start(fp.fs.g, i) + r
    requires if clst == 0 then rem == 0 && r == ClusterBytes(fp.fs.g) else clst == fp.clust && r == rem
    modifies fp.fs`disk, fp.fs`faulted, fp`fptr, fp`dirty, fp`sect, fp`sq, fp`modified, fp.obj`objsize, fp.buf
    ensures fp.fs.WindowOk() && SameElsewhere(fp.fs.g, fp.List(), old(fp.fs.View()), fp.fs.View())
    ensures fp.fptr == old(fp.fptr) + rem && fp.obj.objsize == Larger(fp.fptr, old(fp.obj.objsize))
    ensures res == OK ==> fp.Ok() && size0 <= |fp.Data()| && d == fp.Data()[..size0]
    ensures res != OK ==> res == DISK_ERR && fp.fs.faulted
    ensures old(fp.fs.faulted) ==> fp.fs.faulted
    ensures old(fp.modified) || fp.obj.objsize > old(fp.obj.objsize) ==> fp.modified
  {
    hide FatTable.Links, FatTable.Bits, FatBytes, BitmapBytes, Mirrored, Overlaid, FatAgrees, BitsAgree, SectorOf, ClusterIndex, Denotes;
    hide FATFS.TableOk, FATFS.ListsOk, Content, Holds, PlainData, SameElsewhere, FATFS.WindowOk, FATFS.Valid, Sized, RunOf, Start, WalkSized, BufferPlaced, Buffered, FIL.Ok;
    WalkingParts(fp, fp.clust, i);
    BaseParts(fp);
    hide ClusterBytes, Walking, ClusterList, Geometry.Ok, Geometry.ToSector, Geometry.FirstSector;
    var nsect;
    res, nsect := SectorBehind(fp.fs.g, clst, rem, fp.List(), i, r, fp.fptr);
    if res != OK {
      return;
    }
    MoveEnd(fp, rem, i, r, size0, d);
    res := Refill(fp, nsect, i);
    if res == OK {
      OkParts(fp);
      KeptPrefix(fp.fs.g, fp.View(), fp.List(), size0, fp.obj.objsize);
    }
  }

  // On exFAT: write out the links of the last fragment before the cursor leaves the end.
  method FlushLinks(fp: FIL) returns (res: FRESULT)
    requires fp.Ok() && fp.fs.g.fsType == EXFAT
    modifies fp.fs`disk, fp.fs`faulted, fp.fs`wflag, fp.fs`winsect, fp.fs.win, fp.obj`nFrag
    ensures fp.fs.WindowOk() && TablesOnly(fp.fs.g, fp.List(), old(fp.fs.View()), fp.fs.View())
    ensures res == OK ==> fp.Ok() && fp.obj.nFrag == 0 && fp.Data() == old(fp.Data())
    ensures res != OK ==> res == DISK_ERR && fp.fs.faulted
    ensures old(fp.fs.faulted) ==> fp.fs.faulted
  {
    hide FatTable.Links, FatTable.Bits, FatBytes, BitmapBytes, Mirrored, Overlaid, FatAgrees, BitsAgree, SectorOf, ClusterIndex, Denotes, PendingWritten;
    hide Content, Holds, PlainData, SameElsewhere, Buffered, Geometry.Ok, Masked, Placed, BufferPlaced, Sized, FATFS.ListsOk, BitmapIsMeta;
    ghost var g, v, f, a, ch, empty := fp.fs.g, fp.fs.View(), fp.fs.Links(), fp.obj.Status(), fp.List(), fp.Empty();
    OkParts(fp);
    BaseParts(fp);
    LinkFits(g, 0);
    if !empty {
      PendingAtCursor(fp);
      FlushedState(g, f, a, ch, fp.clust, Masked(EXFAT, 0xFFFF_FFFF), fp.obj.objsize, fp.At());
    }
    res := FillLastFrag(fp.fs, fp.obj, fp.clust, 0xFFFF_FFFF);
    assert LinksElsewhere(g, ch, v, fp.fs.View());
    FatsOutside(g, v, fp.fs.View());
    if res == OK && !empty {
      BufferKept(g, fp.fs.sys, v, fp.fs.View(), ch, fp.sect, fp.sq, fp.dirty, fp.buf[..]);
      DataKept(g, fp.fs.sys, v, fp.fs.View(), ch, ch, fp.obj.objsize, fp.dirty, fp.sect, fp.buf[..]);
    }
  }

  lemma FatsOutside(g: Geometry, v: seq<Sector>, w: seq<Sector>)
    requires SameOutsideFats(g, v, w) && g.Ok() && |v| == g.total
    ensures SameOutsideTables(g, v, w) && (g.fsType == EXFAT ==> BitmapBytes(g, v) == BitmapBytes(g, w))
  {
    if g.fsType == EXFAT {
      SameBitmap(g, v, w);
    }
  }

  lemma FlushedState(g: Geometry, f: seq<dword>, a: Alloc, ch: seq<nat>, lcl: nat, eoc: dword, size: nat, at: int)
    requires g.Ok() && g.fsType == EXFAT && Denotes(g, f, a, ch) && Sized(g, a, ch, size, at)
    requires eoc >= g.nFatent && (a.nFrag > 0 ==> lcl == ch[|ch| - 1])
    ensures Denotes(g, PendingWritten(f, lcl, a.nFrag, eoc), a.(nFrag := 0), ch) && Sized(g, a.(nFrag := 0), ch, size, at)
  {
    FlushLast(g, f, a, ch, eoc);
    if a.nFrag == 0 {
      assert PendingWritten(f, lcl, 0, eoc) == f == PendingWritten(f, ch[|ch| - 1], 0, eoc);
    }
  }

  // While links are pending, the cursor is in the last cluster.
  lemma PendingAtCursor(fp: FIL)
    requires fp.Ok() && fp.fs.g.fsType == EXFAT && !fp.Empty()
    ensures ClusterList(fp.fs.g, fp.List())
    ensures fp.obj.nFrag > 0 ==> fp.clust == fp.List()[|fp.List()| - 1] && fp.obj.nFrag + 1 <= fp.clust < fp.fs.g.nFatent
    ensures forall c: nat :: fp.clust - fp.obj.nFrag < c <= fp.clust ==> c in fp.List()
  {
    hide FATFS.TableOk, FATFS.ListsOk, SectorOf, ClusterIndex, PlainData;
    TrackedList(fp.fs, fp.obj, fp.obj.sclust);
    PendingInside(fp.fs.g, fp.fs.Links(), fp.obj.Status(), fp.List());
  }

  // An open file whose links are all written can be walked from the cursor or from the start.
  lemma WalkFromHere(fp: FIL)
    requires fp.Ok() && !fp.Empty() && fp.fptr > 0 && (fp.fs.g.fsType == EXFAT ==> fp.obj.nFrag == 0)
    ensures Walking(fp, fp.clust, ClusterIndex(fp.fs.g, fp.fptr - 1))
  {
    hide FATFS.TableOk, FATFS.ListsOk, SectorOf, ClusterIndex, PlainData, Denotes;
  }

  lemma WalkFromStart(fp: FIL)
    requires fp.Ok() && !fp.Empty() && (fp.fs.g.fsType == EXFAT ==> fp.obj.nFrag == 0)
    ensures Walking(fp, fp.obj.sclust, 0)
  {
    StartOfList(fp);
    hide FATFS.TableOk, FATFS.ListsOk, SectorOf, ClusterIndex, PlainData, Denotes;
  }

  lemma WalkFromNew(fp: FIL, clst: nat)
    requires ReadyWith(fp, clst) && fp.fptr == 0 && fp.obj.objsize == 0
    ensures Walking(fp, clst, 0) && Keeps(fp, 0, [])
  {
    IndexZero(fp.fs.g);
    hide FATFS.TableOk, FATFS.ListsOk, SectorOf, ClusterIndex, PlainData, Denotes;
  }

  lemma OkKeeps(fp: FIL, d: seq<byte>)
    requires fp.Ok() && !fp.Empty() && fp.Data() == d
    ensures Keeps(fp, fp.obj.objsize, d) && fp.obj.sclust != 0
  {
    OkParts(fp);
  }

  lemma EmptyIsOk(fp: FIL)
    requires fp.Base() && fp.err == OK && fp.Empty()
    ensures fp.Ok() && fp.Data() == []
  {
  }

  lemma StartOfFirst(g: Geometry)
    ensures Start(g, 0) == 0
  {
  }

  // f_lseek: is the target in the cluster of the cursor or behind it?
  predicate Onwards(g: Geometry, fptr: nat, ofs: nat)
    requires ofs > 0
    ensures Onwards(g, fptr, ofs) ==> fptr > 0
  {
    ClusterBytes(g) > 0 && fptr > 0 && (ofs - 1) / ClusterBytes(g) >= (fptr - 1) / ClusterBytes(g)
  }

  lemma OnwardsFrom(g: Geometry, fptr: nat, ofs: nat)
    requires g.csize > 0 && ofs > 0 && Onwards(g, fptr, ofs)
    ensures ClusterBytes(g) > 0 && (fptr - 1) / ClusterBytes(g) * ClusterBytes(g) == Start(g, ClusterIndex(g, fptr - 1)) < ofs
  {
    IndexIsQuotient(g, fptr - 1);
    IndexIsQuotient(g, ofs - 1);
    StartIsMultiple(g, ClusterIndex(g, fptr - 1));
    StartIsMultiple(g, ClusterIndex(g, ofs - 1));
    var b, x, y := ClusterBytes(g), ClusterIndex(g, fptr - 1), ClusterIndex(g, ofs - 1);
    hide ClusterBytes, ClusterIndex, Start;
    MulLe(b, x, y);
    QuotientBelow(ofs - 1, b);
  }

  lemma QuotientBelow(a: nat, b: nat)
    requires b > 0
    ensures b * (a / b) <= a && b * (a / b) == a / b * b
  {
  }

  // f_lseek: where to start, the current cluster or the first one, which may have to be allocated.
  method Depart(fp: FIL, ofs: nat, ghost d: seq<byte>) returns (res: FRESULT, clst: dword, rem: nat, ghost i: nat)
    requires fp.Ok() && (fp.fs.g.fsType == EXFAT ==> fp.obj.nFrag == 0) && 0 < ofs && fp.Data() == d
    modifies fp`fptr, fp`clust, fp.fs, fp.fs.win, fp.obj`stat, fp.obj`nCont, fp.obj`nFrag, fp.obj`sclust
    ensures fp.fs.WindowOk() && fp.fs.sys == old(fp.fs.sys) && TablesOnly(fp.fs.g, fp.List(), old(fp.fs.View()), fp.fs.View())
    ensures fp.fs.chains == old(fp.fs.chains) || ListGrew(old(fp.fs.chains), fp.fs.chains, fp.obj.sclust)
    ensures old(fp.List()) <= fp.List() && (old(fp.obj.sclust) != 0 ==> fp.obj.sclust == old(fp.obj.sclust))
    ensures res == OK && clst != 0 ==> Walking(fp, clst, i) && Keeps(fp, fp.obj.objsize, d) && fp.clust == clst
    ensures res == OK && clst != 0 ==> fp.fptr == Start(fp.fs.g, i) && fp.fptr + rem == ofs && 0 < rem
    ensures res == OK && clst == 0 ==> fp.Ok() && fp.fptr == 0 && fp.Data() == d == []
    ensures res == OK && clst == 0 ==> FreeClusters(fp.fs.g, fp.fs.chains) == {} && fp.List() == []
    ensures res != OK ==> res == DISK_ERR && fp.fs.faulted
    ensures old(fp.fs.faulted) ==> fp.fs.faulted
    ensures Noted(old(fp.fs.freeClst), old(fp.fs.fsiFlag), fp.fs.freeClst, fp.fs.fsiFlag)
  {
    hide FatTable.Links, FatTable.Bits, FatBytes, BitmapBytes, Mirrored, Overlaid, FatAgrees, BitsAgree, SectorOf, ClusterIndex, Denotes, FreeClusters, Owned;
    hide FATFS.TableOk, FATFS.ListsOk, Content, Buffered, BufferPlaced, Holds, WalkSized, ClusterList, Geometry.Ok, PlainData, Start, ListGrew, Onwards;
    hide FATFS.WindowOk, FATFS.Valid, ClusterBytes, Keeps, Walking, FIL.Ok, ReadyWith;
    OkParts(fp);
    BaseParts(fp);
    res, rem, i := OK, ofs, 0;
    if !fp.Empty() {
      OkKeeps(fp, d);
      WalkFromStart(fp);
    }
    if Onwards(fp.fs.g, fp.fptr, ofs) {
      WalkFromHere(fp);
      WalkingPositive(fp, fp.clust, ClusterIndex(fp.fs.g, fp.fptr - 1));
      OnwardsFrom(fp.fs.g, fp.fptr, ofs);
      i := ClusterIndex(fp.fs.g, fp.fptr - 1);
      fp.fptr := (fp.fptr - 1) / ClusterBytes(fp.fs.g) * ClusterBytes(fp.fs.g);
      rem := ofs - fp.fptr;
      clst := fp.clust;
    } else {
      fp.fptr := 0;
      clst := fp.obj.sclust;
      if clst == 0 {
        clst := FirstCluster(fp);
        if clst == BAD {
          return INT_ERR, clst, rem, i;
        }
        if clst == IO_ERROR {
          return DISK_ERR, clst, rem, i;
        }
        if clst != 0 {
          WalkFromNew(fp, clst);
        } else {
          OkParts(fp);
        }
      }
      fp.clust := clst;
      StartOfFirst(fp.fs.g);
      if clst == 0 {
        EmptyIsOk(fp);
      }
    }
  }

  /** Where f_lseek is to go: on FAT12/16/32 not beyond 4 GiB - 1, and not beyond the end of a
      file that is not open for writing. */
  function SeekTarget(g: Geometry, canWrite: bool, size: nat, ofs: nat): nat {
    var o := if g.fsType != EXFAT && ofs >= 0x1_0000_0000 then 0xFFFF_FFFF else ofs;
    if o > size && !canWrite then size else o
  }

  // There is no room up to p: the cursor stands at the end of the last cluster.
  ghost predicate Stuck(fp: FIL, p: nat)
    reads fp`fptr, fp.obj`sclust, fp.fs`chains
  {
    fp.canWrite && fp.fptr < p && FreeClusters(fp.fs.g, fp.fs.chains) == {} && fp.fptr == Start(fp.fs.g, |fp.List()|)
  }

  // f_lseek: from the start of cluster i to the target, rem bytes further on.
  method WalkTo(fp: FIL, clst0: dword, rem0: nat, ghost i0: nat, ghost d: seq<byte>) returns (res: FRESULT)
    requires Walking(fp, clst0, i0) && Keeps(fp, fp.obj.objsize, d) && fp.fptr == Start(fp.fs.g, i0) && fp.clust == clst0
    requires 0 < rem0 && (!fp.canWrite ==> fp.fptr + rem0 <= fp.obj.objsize)
    modifies fp`fptr, fp`clust, fp`sect, fp`sq, fp`dirty, fp`modified, fp.fs, fp.fs.win, fp.obj, fp.buf
    ensures fp.fs.WindowOk() && fp.fs.sys == old(fp.fs.sys) && SameElsewhere(fp.fs.g, fp.List(), old(fp.fs.View()), fp.fs.View())
    ensures fp.fs.chains == old(fp.fs.chains) || ListGrew(old(fp.fs.chains), fp.fs.chains, fp.obj.sclust)
    ensures old(fp.List()) <= fp.List() && fp.obj.sclust == old(fp.obj.sclust)
    ensures res == OK ==> fp.Ok() && d <= fp.Data() && |fp.Data()| == Larger(fp.fptr, |d|)
    ensures res == OK ==> fp.fptr == old(fp.fptr) + rem0 || Stuck(fp, old(fp.fptr) + rem0)
    ensures res != OK ==> res == DISK_ERR && fp.fs.faulted
    ensures old(fp.fs.faulted) ==> fp.fs.faulted
    ensures old(fp.modified) || fp.obj.objsize > old(fp.obj.objsize) ==> fp.modified
    ensures Noted(old(fp.fs.freeClst), old(fp.fs.fsiFlag), fp.fs.freeClst, fp.fs.fsiFlag)
  {
    hide FatTable.Links, FatTable.Bits, FatBytes, BitmapBytes, Mirrored, Overlaid, FatAgrees, BitsAgree, SectorOf, ClusterIndex, Denotes, FreeClusters, Owned;
    hide FATFS.TableOk, FATFS.ListsOk, Content, Buffered, BufferPlaced, Holds, WalkSized, ClusterList, Geometry.Ok, PlainData, Start, ListGrew, Onwards;
    hide FATFS.WindowOk, FATFS.Valid, ClusterBytes, Walking, FIL.Ok, ReadyWith, SameElsewhere;
    ghost var v := fp.fs.View();
    KeepsSize(fp, clst0, i0, d);
    var clst, rem;
    ghost var i;
    res, clst, rem, i := WalkLoop(fp, clst0, rem0, i0, |d|, d);
    if res != OK {
      return;
    }
    WalkingPositive(fp, fp.clust, i);
    StartNext(fp.fs.g, i);
    ghost var w := fp.fs.View();
    res := Arrive(fp, clst, rem, i, if clst == 0 then ClusterBytes(fp.fs.g) else rem, |d|, d);
    SameElsewhereTwice(fp.fs.g, fp.List(), v, w, fp.fs.View());
    if res == OK {
      PrefixIs(d, fp.Data());
    }
  }

  // f_lseek, normal seek, with all deferred links written.
  method SeekTo(fp: FIL, ofs: nat, ghost d: seq<byte>) returns (res: FRESULT)
    requires fp.Ok() && (fp.fs.g.fsType == EXFAT ==> fp.obj.nFrag == 0) && fp.Data() == d
    requires !fp.canWrite ==> ofs <= fp.obj.objsize
    modifies fp`fptr, fp`clust, fp`sect, fp`sq, fp`dirty, fp`modified, fp.fs, fp.fs.win, fp.obj, fp.buf
    ensures fp.fs.WindowOk() && fp.fs.sys == old(fp.fs.sys) && SameElsewhere(fp.fs.g, fp.List(), old(fp.fs.View()), fp.fs.View())
    ensures fp.fs.chains == old(fp.fs.chains) || ListGrew(old(fp.fs.chains), fp.fs.chains, fp.obj.sclust)
    ensures old(fp.List()) <= fp.List()
    ensures res == OK ==> fp.Ok() && d <= fp.Data() && |fp.Data()| == Larger(fp.fptr, |d|)
    ensures res == OK ==> fp.fptr == ofs || (fp.canWrite && fp.fptr < ofs && FreeClusters(fp.fs.g, fp.fs.chains) == {} && fp.fptr == Start(fp.fs.g, |fp.List()|))
    ensures res != OK ==> res == DISK_ERR && fp.fs.faulted
    ensures old(fp.fs.faulted) ==> fp.fs.faulted
    ensures old(fp.modified) || fp.obj.objsize > old(fp.obj.objsize) ==> fp.modified
    ensures Noted(old(fp.fs.freeClst), old(fp.fs.fsiFlag), fp.fs.freeClst, fp.fs.fsiFlag)
  {
    hide FatTable.Links, FatTable.Bits, FatBytes, BitmapBytes, Mirrored, Overlaid, FatAgrees, BitsAgree, SectorOf, ClusterIndex, Denotes, FreeClusters, Owned;
    hide FATFS.TableOk, FATFS.ListsOk, Content, Buffered, BufferPlaced, Holds, WalkSized, ClusterList, Geometry.Ok, PlainData, Start, ListGrew, Onwards;
    hide FATFS.WindowOk, FATFS.Valid, ClusterBytes, Walking, FIL.Ok, ReadyWith, SameElsewhere;
    OkParts(fp);
    ghost var v, chains, key := fp.fs.View(), fp.fs.chains, fp.obj.sclust;
    if ofs == 0 {
      SameElsewhereRefl(fp.fs.g, fp.List(), v);
      Rewind(fp);
      return OK;
    }
    var clst, rem;
    ghost var i, ch0 := 0, fp.List();
    res, clst, rem, i := Depart(fp, ofs, d);
    OutsideIsElsewhere(fp.fs.g, fp.List(), v, fp.fs.View());
    if res != OK || clst == 0 {
      if res == OK {
        StartOfFirst(fp.fs.g);
      }
      return;
    }
    ghost var u, grown, key', ch := fp.fs.View(), fp.fs.chains, fp.obj.sclust, fp.List();
    KeepsSize(fp, clst, i, d);
    ghost var free, flag := fp.fs.freeClst, fp.fs.fsiFlag;
    res := WalkTo(fp, clst, rem, i, d);
    NotedTwice(old(fp.fs.freeClst), old(fp.fs.fsiFlag), free, flag, fp.fs.freeClst, fp.fs.fsiFlag);
    RoundFrame(fp, chains, grown, key', v, u, ch);
  }

  lemma PrefixIs(d: seq<byte>, e: seq<byte>)
    requires |d| <= |e| && d == e[..|d|]
    ensures d <= e
  {
  }

  lemma KeepsSize(fp: FIL, clst: nat, i: nat, d: seq<byte>)
    requires Walking(fp, clst, i) && Keeps(fp, fp.obj.objsize, d)
    ensures |d| == fp.obj.objsize && fp.obj.sclust != 0
  {
  }

  // f_lseek to the start of the file.
  method Rewind(fp: FIL)
    requires fp.Ok() && (fp.fs.g.fsType == EXFAT ==> fp.obj.nFrag == 0)
    modifies fp`fptr
    ensures fp.Ok() && fp.fptr == 0 && fp.Data() == old(fp.Data())
  {
    hide FatTable.Links, FatTable.Bits, FatBytes, BitmapBytes, Mirrored, Overlaid, FatAgrees, BitsAgree, SectorOf, ClusterIndex, Denotes, Content, PlainData, Holds;
    hide FATFS.TableOk, FATFS.ListsOk;
    fp.fptr := 0;
  }

  // f_lseek, with an error recorded in the file object.
  method SeekOrFail(fp: FIL, ofs: nat, ghost d: seq<byte>) returns (res: FRESULT)
    requires fp.Ok() && (fp.fs.g.fsType == EXFAT ==> fp.obj.nFrag == 0) && fp.Data() == d
    modifies fp`fptr, fp`clust, fp`sect, fp`sq, fp`dirty, fp`modified, fp`err, fp.fs, fp.fs.win, fp.obj, fp.buf
    ensures fp.fs.WindowOk() && fp.fs.sys == old(fp.fs.sys) && SameElsewhere(fp.fs.g, fp.List(), old(fp.fs.View()), fp.fs.View())
    ensures fp.fs.chains == old(fp.fs.chains) || ListGrew(old(fp.fs.chains), fp.fs.chains, fp.obj.sclust)
    ensures old(fp.List()) <= fp.List()
    ensures res == OK ==> fp.Ok() && d <= fp.Data() && |fp.Data()| == Larger(fp.fptr, |d|)
    ensures var target := SeekTarget(fp.fs.g, fp.canWrite, |d|, ofs);
            res == OK ==> fp.fptr == target || (fp.canWrite && fp.fptr < target && FreeClusters(fp.fs.g, fp.fs.chains) == {}
                                                && fp.fptr == Start(fp.fs.g, |fp.List()|))
    ensures res != OK ==> res == DISK_ERR == fp.err && fp.fs.faulted
    ensures old(fp.modified) || fp.obj.objsize > old(fp.obj.objsize) ==> fp.modified
    ensures Noted(old(fp.fs.freeClst), old(fp.fs.fsiFlag), fp.fs.freeClst, fp.fs.fsiFlag)
    ensures old(fp.fs.faulted) ==> fp.fs.faulted
  {
    hide FatTable.Links, FatTable.Bits, FatBytes, BitmapBytes, Mirrored, Overlaid, FatAgrees, BitsAgree, SectorOf, ClusterIndex, Denotes, FreeClusters, Owned;
    hide FATFS.TableOk, FATFS.ListsOk, Content, Buffered, BufferPlaced, Holds, ClusterList, Geometry.Ok, PlainData, Start, ListGrew;
    hide FATFS.WindowOk, FATFS.Valid, FIL.Ok, SameElsewhere;
    var o := ofs;
    if fp.fs.g.fsType != EXFAT && o >= 0x1_0000_0000 {
      o := 0xFFFF_FFFF;
    }
    if o > fp.obj.objsize && !fp.canWrite {
      o := fp.obj.objsize;
    }
    OkParts(fp);
    res := SeekTo(fp, o, d);
    if res != OK {
      fp.err := res;
    }
  }

  /** f_lseek without a link map: the cursor goes to the target, and no byte of the file changes.
      A file open for writing is stretched up to it, its new bytes unspecified, unless the volume
      is full: then the cursor stands at the end of the last cluster. In either case it is in the
      cluster that a walk from the first one reaches (Ok). */
  method Seek(fp: FIL, ofs: nat) returns (res: FRESULT)
    requires fp.err == OK ==> fp.Ok()
    requires fp.fs.WindowOk()
    modifies fp`fptr, fp`clust, fp`sect, fp`sq, fp`dirty, fp`modified, fp`err, fp.fs, fp.fs.win, fp.obj, fp.buf
    ensures fp.fs.WindowOk() && fp.fs.sys == old(fp.fs.sys) && SameElsewhere(fp.fs.g, fp.List(), old(fp.fs.View()), fp.fs.View())
    ensures fp.fs.chains == old(fp.fs.chains) || ListGrew(old(fp.fs.chains), fp.fs.chains, fp.obj.sclust)
    ensures old(fp.err) != OK ==> res == old(fp.err)
    ensures res == OK ==> fp.Ok() && old(fp.Data()) <= fp.Data() && |fp.Data()| == Larger(fp.fptr, |old(fp.Data())|)
    ensures res == OK ==>
              var target := SeekTarget(fp.fs.g, fp.canWrite, old(fp.obj.objsize), ofs);
              fp.fptr == target || (fp.canWrite && fp.fptr < target && FreeClusters(fp.fs.g, fp.fs.chains) == {}
                                    && fp.fptr == Start(fp.fs.g, |fp.List()|))
    ensures res == OK && (fp.fs.g.fsType == EXFAT || ofs < 0x1_0000_0000) && (fp.canWrite || ofs <= old(fp.obj.objsize)) ==>
              fp.fptr == ofs || Stuck(fp, ofs)
    ensures res == OK && fp.fs.g.fsType != EXFAT && ofs >= 0x1_0000_0000 && fp.canWrite ==> fp.fptr == 0xFFFF_FFFF || Stuck(fp, 0xFFFF_FFFF)
    ensures res == OK && !fp.canWrite && ofs > old(fp.obj.objsize) && old(fp.obj.objsize) < 0x1_0000_0000 ==> fp.fptr == old(fp.obj.objsize)
    ensures old(fp.err) == OK && res != OK ==> res == DISK_ERR && fp.fs.faulted
    ensures old(fp.modified) || fp.obj.objsize > old(fp.obj.objsize) ==> fp.modified
    ensures Noted(old(fp.fs.freeClst), old(fp.fs.fsiFlag), fp.fs.freeClst, fp.fs.fsiFlag)
    ensures res == OK && old(InfoOk(fp.fs)) ==> InfoOk(fp.fs)
    ensures old(fp.fs.faulted) ==> fp.fs.faulted
  {
    hide FatTable.Links, FatTable.Bits, FatBytes, BitmapBytes, Mirrored, Overlaid, FatAgrees, BitsAgree, SectorOf, ClusterIndex, Denotes, FreeClusters, Owned;
    hide FATFS.TableOk, FATFS.ListsOk, Content, Buffered, BufferPlaced, Holds, ClusterList, Geometry.Ok, PlainData, Start, ListGrew;
    hide FATFS.WindowOk, FATFS.Valid, FIL.Ok, SameElsewhere, InfoOk;
    SameElsewhereRefl(fp.fs.g, fp.List(), fp.fs.View());
    if fp.err != OK {
      return fp.err;
    }
    OkParts(fp);
    ghost var d, v, ch := fp.Data(), fp.fs.View(), fp.List();
    if fp.fs.g.fsType == EXFAT {
      res := FlushLinks(fp);
      OutsideIsElsewhere(fp.fs.g, fp.List(), v, fp.fs.View());
      if res != OK {
        return;
      }
    }
    OkParts(fp);
    ghost var u := fp.fs.View();
    res := SeekOrFail(fp, ofs, d);
    SameElsewhereMore(fp.fs.g, ch, fp.List(), v, u);
    SameElsewhereTwice(fp.fs.g, fp.List(), v, u, fp.fs.View());
    if res == OK {
      OkClusters(fp);
      InfoElsewhere(fp);
    }
  }
}
