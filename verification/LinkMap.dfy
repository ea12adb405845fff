/** The cluster link map: f_lseek's table of fragments and the lookups in it. */
module LinkMap {
  import opened Arith
  import opened Bytes
  import opened Layout
  import opened FatTable
  import opened Chains
  import opened ClusterMap
  import opened Deferred
  import opened Volume
  import opened FatAccess
  import opened ChainOps
  import opened FileData
  import opened File
  import opened Seek

  // With all links written, get_fat can be asked about every cluster of the file.
  lemma AnswersAnywhere(fp: FIL, i: nat)
    requires fp.Ok() && !fp.Empty() && (fp.fs.g.fsType == EXFAT ==> fp.obj.nFrag == 0) && i < |fp.List()|
    ensures Answers(fp.fs.g, fp.obj.Status(), fp.List(), i) && Walking(fp, fp.List()[i], i)
  {
    StartOfList(fp);
    SizedAnswers(fp.fs.g, fp.obj.Status(), fp.List(), fp.obj.objsize, fp.At(), i);
    hide FATFS.TableOk, FATFS.ListsOk, SectorOf, PlainData, Denotes, ClusterIndex, Answers, WalkSized, Sized, ClusterList, Geometry.Ok, Holds, Buffered, FATFS.WindowOk, Disjoint, CountOk;
  }

  lemma SizedAnswers(g: Geometry, a: Alloc, ch: seq<nat>, size: nat, at: int, i: nat)
    requires g.csize > 0 && i < |ch| && Sized(g, a, ch, size, at) && (g.fsType == EXFAT ==> a.nFrag == 0 && a.sclust == ch[0])
    requires a.objsize == size
    ensures Answers(g, a, ch, i) && WalkSized(g, a, ch, size, i)
  {
  }

  /** What get_fat says behind cluster i of an open file. */
  ghost function After(fp: FIL, i: nat): nat
    requires fp.Base() && i < |fp.List()|
    reads fp.obj, fp.fs, fp.fs.win
  {
    if fp.List()[i] < 0x1_0000_0000 then FatValue(fp.fs.g, fp.fs.Links(), fp.obj.Status(), fp.List()[i]) else 0
  }

  /** The end mark of the file's list reads as the number behind its last cluster. */
  ghost predicate EndFollowsOn(fp: FIL)
    requires fp.Base() && |fp.List()| > 0
    reads fp.obj, fp.fs, fp.fs.win
  {
    After(fp, |fp.List()| - 1) == fp.List()[|fp.List()| - 1] + 1
  }

  // get_fat for cluster i of an open file, or for a number behind the FAT.
  method NextLink(fp: FIL, clst: dword, ghost i: nat, ghost d: seq<byte>) returns (cs: dword)
    requires fp.Ok() && !fp.Empty() && (fp.fs.g.fsType == EXFAT ==> fp.obj.nFrag == 0) && fp.Data() == d
    requires if i < |fp.List()| then clst == fp.List()[i] else clst >= fp.fs.g.nFatent
    modifies fp.fs`disk, fp.fs`faulted, fp.fs`wflag, fp.fs`winsect, fp.fs.win
    ensures fp.fs.WindowOk() && TablesOnly(fp.fs.g, fp.List(), old(fp.fs.View()), fp.fs.View())
    ensures cs == IO_ERROR ==> fp.fs.faulted
    ensures cs != IO_ERROR ==> fp.Ok() && fp.Data() == d && fp.fs.Links() == old(fp.fs.Links())
    ensures cs != IO_ERROR && i < |fp.List()| ==> cs == After(fp, i) && fp.fs.g.IsCluster(clst)
    ensures cs != IO_ERROR && i + 1 < |fp.List()| ==> cs == fp.List()[i + 1] && fp.fs.g.IsCluster(cs)
    ensures cs != IO_ERROR && i + 1 == |fp.List()| ==> cs >= fp.fs.g.nFatent
    ensures cs != IO_ERROR && i >= |fp.List()| ==> cs == BAD
    ensures cs != IO_ERROR && i < |fp.List()| ==> cs >= 2
    ensures cs != IO_ERROR ==> fp.List() == old(fp.List()) != [] && (EndFollowsOn(fp) <==> old(EndFollowsOn(fp)))
    ensures old(fp.fs.faulted) ==> fp.fs.faulted
  {
    hide FatTable.Links, FatTable.Bits, FatBytes, BitmapBytes, Mirrored, Overlaid, FatAgrees, BitsAgree, SectorOf, ClusterIndex, Denotes, FreeClusters, Owned;
    hide FATFS.ListsOk, Content, Buffered, BufferPlaced, Holds, WalkSized, ClusterList, Geometry.Ok, Answers, PlainData, Placed, Sized;
    ghost var g, ch, v := fp.fs.g, fp.List(), fp.fs.View();
    OkParts(fp);
    StartOfList(fp);
    AtLeastOne(g);
    if i < |ch| {
      AnswersAnywhere(fp, i);
      FollowsList(fp.fs, fp.obj, fp.obj.sclust, i, clst);
    }
    cs := GetFat(fp.fs, fp.obj, clst);
    SameViewOutside(g, v, fp.fs.View());
    FatsOutside(g, v, fp.fs.View());
    if cs != IO_ERROR {
      BufferKept(g, fp.fs.sys, v, fp.fs.View(), ch, fp.sect, fp.sq, fp.dirty, fp.buf[..]);
      DataKept(g, fp.fs.sys, v, fp.fs.View(), ch, ch, fp.obj.objsize, fp.dirty, fp.sect, fp.buf[..]);
    }
  }

  // A run of n clusters from number s on that does not go on.
  lemma {:induction false} RunInList(ch: seq<nat>, s: nat, n: nat)
    requires 0 < n && s + n <= |ch| && Consecutive(ch, s, s + n - 1) && (s + n < |ch| ==> ch[s + n] != ch[s + n - 1] + 1)
    ensures RunLength(ch[s..]) == n
    decreases n
  {
    if n > 1 {
      RunInList(ch, s + 1, n - 1);
      assert ch[s..][1..] == ch[s + 1..];
    }
  }

  // f_lseek, link map: the length of the fragment that starts at cluster number s, and what follows it.
  method MeasureRun(fp: FIL, top: dword, ghost s: nat, ghost d: seq<byte>) returns (res: FRESULT, ncl: dword, cl: dword)
    requires fp.Ok() && !fp.Empty() && (fp.fs.g.fsType == EXFAT ==> fp.obj.nFrag == 0) && fp.Data() == d
    requires s < |fp.List()| && top == fp.List()[s]
    modifies fp.fs`disk, fp.fs`faulted, fp.fs`wflag, fp.fs`winsect, fp.fs.win
    ensures fp.fs.WindowOk() && SameElsewhere(fp.fs.g, fp.List(), old(fp.fs.View()), fp.fs.View())
    ensures res == OK || res == INT_ERR ==> fp.Ok() && fp.Data() == d && fp.fs.Links() == old(fp.fs.Links())
    ensures res == OK || res == INT_ERR ==> (EndFollowsOn(fp) <==> old(EndFollowsOn(fp)))
    ensures res == OK ==> ncl == RunLength(fp.List()[s..])
    ensures res == OK ==> if s + ncl < |fp.List()| then cl == fp.List()[s + ncl] && cl < fp.fs.g.nFatent else cl >= fp.fs.g.nFatent && !EndFollowsOn(fp)
    ensures res == INT_ERR ==> EndFollowsOn(fp)
    ensures res == OK || res == INT_ERR || (res == DISK_ERR && fp.fs.faulted)
    ensures old(fp.fs.faulted) ==> fp.fs.faulted
  {
    hide FatTable.Links, FatTable.Bits, FatBytes, BitmapBytes, Mirrored, Overlaid, FatAgrees, BitsAgree, SectorOf, ClusterIndex, Denotes, FreeClusters, Owned;
    hide FATFS.TableOk, FATFS.ListsOk, FATFS.WindowOk, FATFS.Valid, Content, Buffered, BufferPlaced, Holds, ClusterList, Geometry.Ok, Answers, PlainData, Placed, Sized;
    hide FIL.Ok, SameElsewhere, RunLength, After, Consecutive;
    ghost var v, ch, i := fp.fs.View(), fp.List(), s;
    cl, ncl, res := top, 0, OK;
    SameElsewhereRefl(fp.fs.g, ch, v);
    NoneYet(ch, s);
    while true
      invariant fp.Ok() && fp.Data() == d && fp.fs.Links() == old(fp.fs.Links()) && (old(fp.fs.faulted) ==> fp.fs.faulted)
      invariant SameElsewhere(fp.fs.g, ch, v, fp.fs.View())
      invariant i == s + ncl && s <= i <= |ch| && res == OK && (if i < |ch| then cl == ch[i] && (i > s ==> cl < fp.fs.g.nFatent) else cl >= fp.fs.g.nFatent)
      invariant EndFollowsOn(fp) <==> old(EndFollowsOn(fp))
      invariant (i < |ch| ==> Consecutive(ch, s, i)) && (i == |ch| ==> EndFollowsOn(fp))
      decreases |ch| + 1 - i
    {
      var pcl := cl;
      ghost var u := fp.fs.View();
      ShortList(fp);
      ncl := ncl + 1;
      cl := NextLink(fp, pcl, i, d);
      OutsideIsElsewhere(fp.fs.g, ch, u, fp.fs.View());
      SameElsewhereTwice(fp.fs.g, ch, v, u, fp.fs.View());
      if cl <= 1 {
        return INT_ERR, ncl, cl;
      }
      if cl == IO_ERROR {
        return DISK_ERR, ncl, cl;
      }
      i := i + 1;
      if cl as int != pcl as int + 1 {
        break;
      }
      OneMore(ch, s, i);
    }
    RunInList(ch, s, ncl);
  }

  lemma AtLeastOne(g: Geometry)
    requires g.Ok()
    ensures g.nFatent > 2
  {
  }

  lemma NoneYet(ch: seq<nat>, s: nat)
    ensures Consecutive(ch, s, s)
  {
  }

  lemma OneMore(ch: seq<nat>, lo: nat, i: nat)
    requires lo < i && Consecutive(ch, lo, i - 1) && (i < |ch| ==> ch[i] == ch[i - 1] + 1)
    ensures i < |ch| ==> Consecutive(ch, lo, i)
  {
  }

  lemma ShortList(fp: FIL)
    requires fp.Ok() && !fp.Empty()
    ensures |fp.List()| < 0x7FFF_FFFF
  {
    hide FATFS.TableOk;
    TrackedList(fp.fs, fp.obj, fp.obj.sclust);
    ListFits(fp.fs.g, fp.List());
  }

  // r holds the fragments of the first s clusters.
  ghost predicate Prefix(ch: seq<nat>, s: nat, r: seq<nat>) {
    s <= |ch| && Runs(ch) == r + Runs(ch[s..])
  }

  lemma PrefixMore(ch: seq<nat>, s: nat, r: seq<nat>)
    requires Prefix(ch, s, r) && s < |ch|
    ensures var n := RunLength(ch[s..]); s + n <= |ch| && Prefix(ch, s + n, r + [n, ch[s]])
  {
    var n := RunLength(ch[s..]);
    assert ch[s..][n..] == ch[s + n..];
    assert Runs(ch) == (r + [n, ch[s]]) + Runs(ch[s + n..]);
  }

  lemma PrefixNone(ch: seq<nat>)
    ensures Prefix(ch, 0, [])
  {
    assert ch[0..] == ch;
  }

  lemma PrefixAll(ch: seq<nat>, r: seq<nat>)
    requires Prefix(ch, |ch|, r)
    ensures r == Runs(ch)
  {
  }

  // Entries 1 .. |r| of the table are r.
  ghost predicate Tabled(t: seq<dword>, r: seq<nat>) {
    |r| < |t| && Matches(t[1..1 + |r|], r)
  }

  lemma TabledMore(t: seq<dword>, r: seq<nat>, x: dword, y: dword)
    requires Tabled(t, r) && |r| + 2 < |t|
    ensures Tabled(t[|r| + 1 := x][|r| + 2 := y], r + [x, y])
  {
    var u := t[|r| + 1 := x][|r| + 2 := y];
    forall i | 0 <= i < |r| + 2 ensures u[1..1 + |r| + 2][i] as int == (r + [x, y])[i] {
      if i < |r| {
        assert t[1..1 + |r|][i] == t[1 + i];
      }
    }
  }

  lemma TabledEnd(t: seq<dword>, r: seq<nat>, n: dword)
    requires Tabled(t, r) && |r| + 1 < |t|
    ensures Tabled(t[0 := n][|r| + 1 := 0], r + [0])
  {
    var u := t[0 := n][|r| + 1 := 0];
    forall i | 0 <= i < |r| + 1 ensures u[1..1 + |r| + 1][i] as int == (r + [0])[i] {
      if i < |r| {
        assert t[1..1 + |r|][i] == t[1 + i];
      }
    }
  }

  // f_lseek, link map: the fragments of a file that has clusters.
  method TabulateRuns(fp: FIL, cltbl: array<dword>, tlen: dword, ghost d: seq<byte>) returns (res: FRESULT, ulen: nat)
    requires fp.Ok() && !fp.Empty() && (fp.fs.g.fsType == EXFAT ==> fp.obj.nFrag == 0) && fp.Data() == d
    requires 0 < cltbl.Length && tlen <= cltbl.Length && Apart(fp, cltbl)
    modifies fp.fs`disk, fp.fs`faulted, fp.fs`wflag, fp.fs`winsect, fp.fs.win, cltbl
    ensures fp.fs.WindowOk() && SameElsewhere(fp.fs.g, fp.List(), old(fp.fs.View()), fp.fs.View())
    ensures res == OK || res == INT_ERR ==> fp.Ok() && fp.Data() == d && (EndFollowsOn(fp) <==> old(EndFollowsOn(fp)))
    ensures res == OK ==> ulen == |Runs(fp.List())| + 2 && (ulen <= tlen ==> Tabled(cltbl[..], Runs(fp.List()))) && !EndFollowsOn(fp)
    ensures res == INT_ERR ==> EndFollowsOn(fp)
    ensures res == OK || res == INT_ERR || (res == DISK_ERR && fp.fs.faulted)
  {
    hide FatTable.Links, FatTable.Bits, FatBytes, BitmapBytes, Mirrored, Overlaid, FatAgrees, BitsAgree, SectorOf, ClusterIndex, Denotes, FreeClusters, Owned;
    hide FATFS.TableOk, FATFS.ListsOk, FATFS.WindowOk, FATFS.Valid, Content, Buffered, BufferPlaced, Holds, ClusterList, Geometry.Ok, Answers, PlainData, Placed, Sized;
    hide FIL.Ok, SameElsewhere, RunLength, After, Runs, Prefix, Tabled, EndFollowsOn;
    ghost var v, ch := fp.fs.View(), fp.List();
    ghost var s: nat, r: seq<nat> := 0, [];
    SameElsewhereRefl(fp.fs.g, ch, v);
    PrefixNone(ch);
    StartOfList(fp);
    TabledNone(cltbl[..]);
    var pos: nat, cl: dword := 1, fp.obj.sclust;
    res, ulen := OK, 2;
    while true
      invariant fp.Ok() && fp.Data() == d && SameElsewhere(fp.fs.g, ch, v, fp.fs.View()) && res == OK
      invariant EndFollowsOn(fp) <==> old(EndFollowsOn(fp))
      invariant s < |ch| && cl == ch[s] && Prefix(ch, s, r) && ulen == |r| + 2
      invariant ulen <= tlen ==> pos == |r| + 1 && Tabled(cltbl[..], r)
      decreases |ch| - s
    {
      var tcl := cl;
      ghost var u := fp.fs.View();
      PrefixMore(ch, s, r);
      ulen := ulen + 2;
      var ncl: dword;
      res, ncl, cl := MeasureRun(fp, tcl, s, d);
      SameElsewhereTwice(fp.fs.g, ch, v, u, fp.fs.View());
      if res != OK {
        return;
      }
      if ulen <= tlen {
        TabledMore(cltbl[..], r, ncl, tcl);
        cltbl[pos] := ncl;
        cltbl[pos + 1] := tcl;
        pos := pos + 2;
      }
      s, r := s + ncl, r + [ncl, tcl];
      if !(cl < fp.fs.g.nFatent) {
        break;
      }
    }
    PrefixAll(ch, r);
  }

  lemma TabledNone(t: seq<dword>)
    requires |t| > 0
    ensures Tabled(t, [])
  {
  }

  /** f_lseek(CREATE_LINKMAP): the first entry is set to the number of entries that the map
      needs; the map is complete if the table had room for that many. It fails with an internal
      error exactly when the end mark reads as the number behind the last cluster. */
  method CreateLinkMap(fp: FIL, cltbl: array<dword>) returns (res: FRESULT)
    requires fp.Ok() && (fp.fs.g.fsType == EXFAT ==> fp.obj.nFrag == 0)
    requires cltbl == fp.cltbl && 0 < cltbl.Length && cltbl[0] <= cltbl.Length && Apart(fp, cltbl)
    modifies fp.fs`disk, fp.fs`faulted, fp.fs`wflag, fp.fs`winsect, fp.fs.win, cltbl, fp`err
    ensures fp.fs.WindowOk() && SameElsewhere(fp.fs.g, fp.List(), old(fp.fs.View()), fp.fs.View())
    ensures res == OK || res == NOT_ENOUGH_CORE ==> fp.Ok() && fp.Data() == old(fp.Data()) && cltbl[0] == |Runs(fp.List())| + 2
    ensures res == OK ==> Mapped(fp) && MapOf(cltbl, fp.List()) && |Runs(fp.List())| + 2 <= old(cltbl[0])
    ensures res == NOT_ENOUGH_CORE ==> |Runs(fp.List())| + 2 > old(cltbl[0])
    ensures res == INT_ERR ==> old(!fp.Empty() && |fp.List()| > 0 && EndFollowsOn(fp))
    ensures res == OK || res == NOT_ENOUGH_CORE ==> old(fp.Empty() || |fp.List()| == 0 || !EndFollowsOn(fp))
    ensures res == OK || res == NOT_ENOUGH_CORE || res == INT_ERR || (res == DISK_ERR && fp.fs.faulted)
  {
    hide FatTable.Links, FatTable.Bits, FatBytes, BitmapBytes, Mirrored, Overlaid, FatAgrees, BitsAgree, SectorOf, ClusterIndex, Denotes, FreeClusters, Owned;
    hide FATFS.TableOk, FATFS.ListsOk, FATFS.WindowOk, FATFS.Valid, Content, Buffered, BufferPlaced, Holds, ClusterList, Geometry.Ok, Answers, PlainData, Placed, Sized;
    hide FIL.Ok, SameElsewhere, RunLength, After, EndFollowsOn;
    var tlen, ulen := cltbl[0], 2;
    OkParts(fp);
    res := OK;
    SameElsewhereRefl(fp.fs.g, fp.List(), fp.fs.View());
    if fp.obj.sclust != 0 {
      StartOfList(fp);
      res, ulen := TabulateRuns(fp, cltbl, tlen, fp.Data());
      if res != OK {
        fp.err := res;
        return;
      }
      RunsFit(fp);
    } else {
      NoList(fp);
      TabledNone(cltbl[..]);
    }
    if ulen <= tlen {
      TabledEnd(cltbl[..], Runs(fp.List()), ulen);
    }
    cltbl[0] := ulen;
    if ulen <= tlen {
      cltbl[ulen - 1] := 0;
    } else {
      res := NOT_ENOUGH_CORE;
    }
  }

  lemma NoList(fp: FIL)
    requires fp.Ok() && fp.obj.sclust == 0
    ensures fp.Empty() && fp.List() == []
  {
    NoListZero(fp.fs.g, fp.fs.chains);
  }

  lemma {:induction false} RunsLength(ch: seq<nat>)
    ensures |Runs(ch)| <= 2 * |ch|
    decreases |ch|
  {
    if ch != [] {
      RunsLength(ch[RunLength(ch)..]);
    }
  }

  lemma RunsFit(fp: FIL)
    requires fp.Ok() && !fp.Empty()
    ensures |Runs(fp.List())| + 2 < 0x1_0000_0000
  {
    hide FIL.Ok, FATFS.Valid, FIL.Empty, Runs;
    ShortList(fp);
    RunsLength(fp.List());
  }

  /** The end mark that this code writes is the number behind a cluster on the largest exFAT volumes
      only, and there only behind their last cluster. */
  lemma EndMarkAbove(g: Geometry, c: nat)
    requires g.Ok() && g.IsCluster(c)
    ensures Masked(g.fsType, 0xFFFF_FFFF) >= c + 1
    ensures Masked(g.fsType, 0xFFFF_FFFF) == c + 1 <==> g.fsType == EXFAT && c == 0x7FFF_FFFE
  {
    match g.fsType
    case FAT12 => ModDigits(0xFFFF_FFFF, 0x1000, 0x10_0000);
    case FAT16 => ModDigits(0xFFFF_FFFF, 0x1_0000, 0x1_0000);
    case FAT32 => ModDigits(0xFFFF_FFFF, 0x1000_0000, 0x10);
    case EXFAT => ModDigits(0xFFFF_FFFF, 0x8000_0000, 2);
  }

  /** An exFAT volume with as many clusters as there can be, of one sector each. */
  function Largest(): (g: Geometry)
    ensures g.Ok() && g.fsType == EXFAT && g.nFatent == 0x7FFF_FFFF
  {
    Geometry(EXFAT, 1, 1, 0x7FFF_FFFF, 0x100_0000, 0, 1, 2, 0x100_0001, 0x100_0001, 0, 0x100_0001 + 0x7FFF_FFFD)
  }

  /** A file of one byte in its last cluster. */
  function LastFile(): Alloc {
    Alloc(2, 0x7FFF_FFFE, 0, 0, 1)
  }

  /** There the map cannot be made, whatever the FAT holds: get_fat's end mark for this well-formed file is
      the number behind its last cluster. */
  lemma MapFailsAtVolumeEnd(f: seq<dword>)
    requires |f| == 0x7FFF_FFFF && forall c :: 0 <= c < |f| ==> f[c] < 0x8000_0000
    ensures Denotes(Largest(), f, LastFile(), [0x7FFF_FFFE]) && Answers(Largest(), LastFile(), [0x7FFF_FFFE], 0)
    ensures FatValue(Largest(), f, LastFile(), 0x7FFF_FFFE) == 0x7FFF_FFFE + 1
  {
    var a, g := LastFile(), Largest();
    assert FromStart(a, 0x7FFF_FFFE) == 0;
    assert LastIndex(g, a.objsize) == 0;
  }

  /** On the other types it takes an end mark that this code does not write: n_fatent itself. */
  lemma MapFailsAtForeignMark(g: Geometry, f: seq<dword>, a: Alloc)
    requires g.Ok() && g.fsType != EXFAT && |f| == g.nFatent && f[g.nFatent - 1] == g.nFatent
    requires forall c :: 0 <= c < |f| ==> f[c] < 0x8000_0000
    ensures Denotes(g, f, a, [g.nFatent - 1])
    ensures FatValue(g, f, a, g.nFatent - 1) == g.nFatent - 1 + 1
    ensures Masked(g.fsType, 0xFFFF_FFFF) != g.nFatent
  {
    EndMarkAbove(g, g.nFatent - 1);
  }

  lemma SectorOfByte(g: Geometry, ch: seq<nat>, size: nat, p: nat)
    requires g.Ok() && ClusterList(g, ch) && Holds(g, ch, size) && 0 < p <= size
    ensures var i := ClusterIndex(g, p - 1);
            && i < |ch| && i < 0x1_0000_0000 && ch[i] < 0x1_0000_0000 && 0 < g.ToSector(ch[i])
            && (p % SECTOR_SIZE != 0 ==> RunOf(g, ch, p / SECTOR_SIZE, 1, g.ToSector(ch[i]) + (p - 1) / SECTOR_SIZE % g.csize))
  {
    hide ClusterList, Geometry.Ok;
    var q := (p - 1) / SECTOR_SIZE;
    HeldSector(g, ch, size, p - 1);
    BlockIndex(q, g.csize, |ch|);
    ListFits(g, ch);
    FatFits(g);
    ClusterSector(g, ch, q / g.csize);
    BlockEnd(p, SECTOR_SIZE);
  }

  lemma FatFits(g: Geometry)
    requires g.Ok()
    ensures g.nFatent < 0x1_0000_0000 && g.csize > 0
  {
  }

  // f_lseek with a link map: put the cursor behind byte p - 1, in cluster c; an internal error if c is 0.
  method LandAt(fp: FIL, c: dword, p: nat, ghost i: nat) returns (res: FRESULT)
    requires fp.Base() && fp.Tracked() && fp.err == OK && 0 < p <= fp.obj.objsize && Holds(fp.fs.g, fp.List(), fp.obj.objsize)
    requires c == 0 || (ClusterIndex(fp.fs.g, p - 1) == i < |fp.List()| && c == fp.List()[i] && fp.fs.g.ToSector(c) > 0)
    requires Sized(fp.fs.g, fp.obj.Status(), fp.List(), fp.obj.objsize, i)
    requires BufferPlaced(fp.fs.g, fp.List(), fp.sect, fp.sq) && Buffered(fp.fs.View(), fp.sect, fp.dirty, fp.buf[..])
    requires c != 0 && p % SECTOR_SIZE != 0 ==>
               RunOf(fp.fs.g, fp.List(), p / SECTOR_SIZE, 1, fp.fs.g.ToSector(c) + (p - 1) / SECTOR_SIZE % fp.fs.g.csize)
    modifies fp.fs`disk, fp.fs`faulted, fp`fptr, fp`clust, fp`dirty, fp`sect, fp`sq, fp.buf
    ensures fp.fs.WindowOk() && SameElsewhere(fp.fs.g, fp.List(), old(fp.fs.View()), fp.fs.View())
    ensures res == OK ==> fp.Ok() && !fp.Empty() && fp.View() == old(fp.View()) && fp.fptr == p
    ensures res == INT_ERR <==> c == 0
    ensures res == OK || res == INT_ERR || (res == DISK_ERR && fp.fs.faulted)
  {
    hide FatTable.Links, FatTable.Bits, FatBytes, BitmapBytes, Mirrored, Overlaid, FatAgrees, BitsAgree, SectorOf, ClusterIndex, Denotes, FreeClusters, Owned;
    hide FATFS.TableOk, FATFS.ListsOk, FATFS.WindowOk, FATFS.Valid, Content, Buffered, BufferPlaced, Holds, ClusterList, Geometry.Ok, PlainData, Sized;
    hide FIL.Ok, SameElsewhere, RunOf, Geometry.ToSector;
    BaseParts(fp);
    FatFits(fp.fs.g);
    NoSector(fp.fs.g);
    SameElsewhereRefl(fp.fs.g, fp.List(), fp.fs.View());
    fp.fptr := p;
    fp.clust := c;
    var dsc := fp.fs.g.ToSector(c);
    if dsc == 0 {
      return INT_ERR;
    }
    dsc := dsc + (p - 1) / SECTOR_SIZE % fp.fs.g.csize;
    res := Refill(fp, dsc, i);
  }

  lemma NoSector(g: Geometry)
    ensures g.ToSector(0) == 0
  {
  }

  /** f_lseek with a link map: the cursor goes to the target or to the end of the file, whichever
      comes first, without looking at the FAT, and lands in the cluster a walk would reach (Ok). It fails with
      an internal error exactly when the map was made while the file was empty, and the target is not 0. */
  method FastSeek(fp: FIL, cltbl: array<dword>, ofs: nat) returns (res: FRESULT)
    requires fp.Ok() && (fp.fs.g.fsType == EXFAT ==> fp.obj.nFrag == 0) && fp.cltbl == cltbl && Mapped(fp)
    modifies fp.fs`disk, fp.fs`faulted, fp`fptr, fp`clust, fp`dirty, fp`sect, fp`sq, fp`err, fp.buf
    ensures fp.fs.WindowOk() && SameElsewhere(fp.fs.g, fp.List(), old(fp.fs.View()), fp.fs.View())
    ensures Mapped(fp)
    ensures res == OK ==> fp.Ok() && fp.Data() == old(fp.Data())
    ensures res == OK ==> fp.fptr == if ofs > fp.obj.objsize then fp.obj.objsize else ofs
    ensures res == INT_ERR <==> 0 < ofs && 0 < old(fp.obj.objsize) && !MapOf(cltbl, fp.List())
    ensures res == OK || res == fp.err == INT_ERR || (res == fp.err == DISK_ERR && fp.fs.faulted)
  {
    hide FatTable.Links, FatTable.Bits, FatBytes, BitmapBytes, Mirrored, Overlaid, FatAgrees, BitsAgree, SectorOf, ClusterIndex, Denotes, FreeClusters, Owned;
    hide FATFS.TableOk, FATFS.ListsOk, FATFS.WindowOk, FATFS.Valid, Content, Buffered, BufferPlaced, Holds, ClusterList, Geometry.Ok, Answers, PlainData, Placed, Sized;
    hide FIL.Ok, SameElsewhere, RunOf, Geometry.ToSector, Runs, Matches, LinksElsewhere, FIL.Base, FIL.Tracked, Geometry.InTables, MapOf;
    var p := if ofs > fp.obj.objsize then fp.obj.objsize else ofs;
    OkParts(fp);
    if p == 0 {
      SameElsewhereRefl(fp.fs.g, fp.List(), fp.fs.View());
      Rewind(fp);
      return OK;
    }
    SectorOfByte(fp.fs.g, fp.List(), fp.obj.objsize, p);
    AnywhereSized(fp, ClusterIndex(fp.fs.g, p - 1));
    ghost var made := MapOf(cltbl, fp.List());
    var c := ClmtClust(fp.fs.g, cltbl, p - 1, if made then fp.List() else []);
    MappedCount(fp, ClusterIndex(fp.fs.g, p - 1));
    res := LandAt(fp, c, p, ClusterIndex(fp.fs.g, p - 1));
    if res != OK {
      fp.err := res;
      return;
    }
    OkParts(fp);
  }

  // Clusters of a file have numbers that are not 0.
  lemma MappedCount(fp: FIL, i: nat)
    requires fp.Ok() && !fp.Empty() && i < |fp.List()|
    ensures fp.List()[i] != 0 && i < 0x7FFF_FFFF
  {
    hide FATFS.TableOk;
    TrackedList(fp.fs, fp.obj, fp.obj.sclust);
    ListFits(fp.fs.g, fp.List());
  }

  lemma AnywhereSized(fp: FIL, i: nat)
    requires fp.Ok() && !fp.Empty() && (fp.fs.g.fsType == EXFAT ==> fp.obj.nFrag == 0)
    ensures Sized(fp.fs.g, fp.obj.Status(), fp.List(), fp.obj.objsize, i) && Buffered(fp.fs.View(), fp.sect, fp.dirty, fp.buf[..])
  {
    hide FATFS.TableOk, FATFS.ListsOk, SectorOf, PlainData, Denotes;
  }
}
