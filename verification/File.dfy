/** Open files: the byte cursor with its sector buffer, on top of the cluster chains. */
module File {
  import opened Arith
  import opened Bytes
  import opened Layout
  import opened FatTable
  import opened Chains
  import opened Volume
  import opened Info
  import opened Deferred
  import opened ChainOps
  import opened ClusterMap
  import opened FileData

  /** No cluster of the list holds metadata. */
  ghost predicate PlainData(sys: set<nat>, ch: seq<nat>) {
    forall i :: 0 <= i < |ch| ==> ch[i] !in sys
  }

  // The n sectors from file sector q on, within one cluster.
  ghost predicate RunOf(g: Geometry, ch: seq<nat>, q: nat, n: nat, sect: nat) {
    g.csize > 0 && q < g.csize * |ch| && 0 < n && q % g.csize + n <= g.csize && sect == SectorOf(g, ch, q)
  }

  lemma FileSectorIsData(g: Geometry, sys: set<nat>, ch: seq<nat>, q: nat)
    requires g.Ok() && ClusterList(g, ch) && PlainData(sys, ch) && q < g.csize * |ch|
    ensures var s := SectorOf(g, ch, q);
            !g.Meta(sys, s) && !g.InFat1(s) && !g.InFat2(s) && InList(g, ch, s) && 0 < s < g.DataEnd() <= g.total
  {
    SectorInCluster(g, ch, q);
    DataSector(g, sys, ch[q / g.csize], SectorOf(g, ch, q));
  }

  lemma RunIsData(g: Geometry, sys: set<nat>, ch: seq<nat>, q: nat, n: nat, sect: nat)
    requires g.Ok() && ClusterList(g, ch) && PlainData(sys, ch) && RunOf(g, ch, q, n, sect)
    ensures sect + n <= g.DataEnd() <= g.total
    ensures forall s :: sect <= s < sect + n ==> !g.Meta(sys, s) && !g.InFat1(s) && !g.InFat2(s) && InList(g, ch, s)
  {
    hide Geometry.Ok, ClusterList, PlainData, SectorOf, InList, Geometry.Meta;
    SectorsFollow(g, ch, q, n - 1);
    FileSectorIsData(g, sys, ch, q + (n - 1));
    forall s | sect <= s < sect + n ensures !g.Meta(sys, s) && !g.InFat1(s) && !g.InFat2(s) && InList(g, ch, s) {
      SectorsFollow(g, ch, q, s - sect);
      FileSectorIsData(g, sys, ch, q + (s - sect));
    }
  }

  // Changing data sectors changes neither the FAT nor the bitmap.
  lemma TablesKept(g: Geometry, sys: set<nat>, v: seq<Sector>, w: seq<Sector>)
    requires g.Ok() && |v| == |w| == g.total
    requires forall s :: 0 <= s < |v| && (g.Meta(sys, s) || g.InFat1(s)) ==> w[s] == v[s]
    ensures FatBytes(g, v) == FatBytes(g, w)
    ensures g.fsType == EXFAT && BitmapIsMeta(g, sys) ==> BitmapBytes(g, v) == BitmapBytes(g, w)
  {
    FatInside(g);
    SameRegion(v, w, g.fatbase, g.fsize);
    if g.fsType == EXFAT && BitmapIsMeta(g, sys) {
      SameRegion(v, w, g.bitbase, g.BitmapSectors());
    }
  }

  // disk_write of sectors of a file.
  method WriteSectors(fs: FATFS, sect: nat, data: seq<Sector>, ghost ch: seq<nat>, ghost q: nat) returns (ok: bool)
    requires fs.Valid() && ClusterList(fs.g, ch) && PlainData(fs.sys, ch) && RunOf(fs.g, ch, q, |data|, sect)
    modifies fs`disk, fs`faulted
    ensures fs.Valid() && fs.Links() == old(fs.Links())
    ensures ok ==> Replaced(old(fs.View()), fs.View(), sect, data)
    ensures SameElsewhere(fs.g, ch, old(fs.View()), fs.View())
    ensures !ok ==> fs.faulted
    ensures old(fs.faulted) ==> fs.faulted
  {
    hide FatBytes, BitmapBytes, Overlaid, Mirrored, FatTable.Links, FatTable.Bits, FatAgrees, BitsAgree, Disjoint, CountOk;
    RunIsData(fs.g, fs.sys, ch, q, |data|, sect);
    ghost var v := fs.View();
    ok := fs.WriteData(sect, data);
    TablesKept(fs.g, fs.sys, v, fs.View());
  }

  // disk_read of sectors of a file.
  method ReadSectors(fs: FATFS, sect: nat, n: nat, ghost ch: seq<nat>, ghost q: nat) returns (ok: bool, data: seq<Sector>)
    requires fs.Valid() && ClusterList(fs.g, ch) && PlainData(fs.sys, ch) && RunOf(fs.g, ch, q, n, sect)
    modifies fs`faulted
    ensures fs.Valid() && fs.View() == old(fs.View())
    ensures ok ==> sect + n <= |fs.View()| && data == fs.View()[sect..sect + n]
    ensures !ok ==> fs.faulted
    ensures old(fs.faulted) ==> fs.faulted
  {
    hide FatBytes, BitmapBytes, Overlaid, Mirrored, FatTable.Links, FatTable.Bits, FatAgrees, BitsAgree, Disjoint, CountOk;
    RunIsData(fs.g, fs.sys, ch, q, n, sect);
    ok, data := fs.ReadData(sect, n);
  }

  /** The cursor stands within the file, clust is the cluster of the byte before it, and the
      buffered sector, number sq of the file, is the one it stands in unless it is on a boundary. */
  ghost predicate Placed(g: Geometry, ch: seq<nat>, size: nat, fptr: nat, clust: nat, sect: nat, sq: nat) {
    && g.csize > 0 && fptr <= size && Holds(g, ch, size)
    && (fptr > 0 ==> ClusterIndex(g, fptr - 1) < |ch| && clust == ch[ClusterIndex(g, fptr - 1)])
    && (sect != 0 ==> sq < g.csize * |ch| && sect == SectorOf(g, ch, sq))
    && (fptr % SECTOR_SIZE != 0 ==> sect != 0 && sq == fptr / SECTOR_SIZE)
  }

  /** A clean buffer equals its sector. */
  ghost predicate Buffered(v: seq<Sector>, sect: nat, dirty: bool, b: seq<byte>) {
    (dirty ==> sect != 0) && (sect != 0 && !dirty ==> sect < |v| && v[sect] == b)
  }

  /** On exFAT the size is the one the chain status needs, and links are pending only while
      the cursor, in cluster number at, is at the end. */
  ghost predicate Sized(g: Geometry, a: Alloc, ch: seq<nat>, size: nat, at: int)
    requires g.csize > 0
  {
    g.fsType == EXFAT ==>
      && size > 0
      && (a.stat == 2 ==> ClusterIndex(g, size - 1) == |ch| - 1)
      && (a.nFrag != 0 ==> at == |ch| - 1)
  }

  class FIL {
    const fs: FATFS
    const obj: FFOBJID
    const buf: array<byte>
    const canRead: bool
    const canWrite: bool
    // Where the directory entry is: dir_sect, and dir_ptr as an offset in the window.
    const dirSect: nat
    const dirOfs: nat
    var fptr: nat
    var clust: dword
    var sect: nat
    var dirty: bool
    var modified: bool
    var err: FRESULT
    // The table of the link map in fast seek mode, else null.
    var cltbl: array?<dword>
    // Number of the buffered sector, counted from the start of the file.
    ghost var sq: nat

    /** The end of f_open: a file whose allocation state the volume knows, at position 0. */
    constructor (fs: FATFS, obj: FFOBJID, canRead: bool, canWrite: bool, dirSect: nat, dirOfs: nat)
      requires fs.Valid()
      requires (obj.sclust == 0 && obj.objsize == 0 && obj.nFrag == 0) ||
               (obj.sclust != 0 && Tracks(fs, obj, obj.sclust) && PlainData(fs.sys, fs.chains[obj.sclust])
                && Holds(fs.g, fs.chains[obj.sclust], obj.objsize)
                && Sized(fs.g, obj.Status(), fs.chains[obj.sclust], obj.objsize, -1))
      ensures Ok() && this.fs == fs && this.obj == obj && this.canRead == canRead && this.canWrite == canWrite
      ensures this.dirSect == dirSect && this.dirOfs == dirOfs
      ensures fptr == 0 && fresh(buf) && !dirty && cltbl == null
    {
      hide FatTable.Links, FatTable.Bits, FatBytes, BitmapBytes, Denotes, Mirrored, Overlaid, FatAgrees, BitsAgree, Disjoint, CountOk, SectorOf;
      hide FATFS.ListsOk, FATFS.TableOk, PlainData, ClusterIndex;
      this.fs, this.obj, this.canRead, this.canWrite := fs, obj, canRead, canWrite;
      this.dirSect, this.dirOfs := dirSect, dirOfs;
      buf := new byte[SECTOR_SIZE](_ => 0);
      fptr, clust, sect, sq := 0, 0, 0, 0;
      dirty, modified, err, cltbl := false, false, FRESULT.OK, null;
    }

    ghost function List(): seq<nat>
      reads obj`sclust, fs`chains
    {
      if obj.sclust in fs.chains then fs.chains[obj.sclust] else []
    }

    ghost predicate Base()
      reads fs, fs.win
      ensures Base() ==> fs.Valid()
    {
      fs.Valid() && buf.Length == SECTOR_SIZE && buf != fs.win
    }

    ghost predicate Tracked()
      requires Base()
      reads obj, fs, fs.win
      ensures Tracked() ==> obj.sclust != 0 && ClusterList(fs.g, List())
    {
      obj.sclust != 0 && Tracks(fs, obj, obj.sclust) && PlainData(fs.sys, List())
    }

    // Index of the cluster that the cursor is in, as clust has it.
    ghost function At(): int
      requires fs.g.csize > 0
      reads this`fptr
    {
      if fptr == 0 then -1 else ClusterIndex(fs.g, fptr - 1)
    }

    /** The volume with the dirty buffer laid over it. */
    ghost function View(): (v: seq<Sector>)
      reads this`dirty, this`sect, fs, fs.win, buf
      ensures |v| == |fs.disk|
    {
      Overlaid(fs.View(), dirty, sect, buf[..])
    }

    ghost predicate Empty()
      reads this`fptr, this`sect, this`dirty, obj
    {
      obj.sclust == 0 && obj.objsize == 0 && fptr == 0 && sect == 0 && !dirty && obj.nFrag == 0
    }

    ghost predicate Ok()
      reads this`fptr, this`clust, this`sect, this`sq, this`dirty, this`err, obj, fs, fs.win, buf
      ensures Ok() ==> Base() && err == FRESULT.OK && fptr <= obj.objsize
      ensures Ok() ==> Empty() || (Tracked() && Holds(fs.g, List(), obj.objsize))
    {
      && Base() && err == FRESULT.OK
      && (Empty() || (Tracked() && Sized(fs.g, obj.Status(), List(), obj.objsize, At())
                      && Placed(fs.g, List(), obj.objsize, fptr, clust, sect, sq)
                      && Buffered(fs.View(), sect, dirty, buf[..])))
    }

    /** The contents of the file, buffered bytes included. */
    ghost function Data(): (d: seq<byte>)
      requires Base() && (Empty() || (Tracked() && Holds(fs.g, List(), obj.objsize)))
      reads this`fptr, this`sect, this`dirty, obj, fs, fs.win, buf
      ensures |d| == obj.objsize
    {
      if obj.sclust == 0 then [] else
        Content(fs.g, View(), List(), obj.objsize)
    }
  }

  /** In fast seek mode the table maps the clusters of the file; or it was made while the file was empty,
      and the file has at most one cluster. */
  ghost predicate Mapped(fp: FIL)
    reads fp`cltbl, fp.cltbl, fp.obj`sclust, fp.fs`chains
  {
    fp.cltbl != null ==>
      && Apart(fp, fp.cltbl)
      && (MapOf(fp.cltbl, fp.List()) || (|fp.List()| <= 1 && MapOf(fp.cltbl, [])))
  }

  // The table is not one of the byte buffers.
  ghost predicate Apart(fp: FIL, cltbl: array<dword>) {
    var o: object := cltbl;
    o != fp.buf && o != fp.fs.win
  }

  // The caller's memory is not the table.
  ghost predicate Outside(fp: FIL, mem: array<byte>)
    reads fp`cltbl
  {
    var o: object := mem;
    o != fp.cltbl
  }

  lemma TrackedList(fs: FATFS, obj: FFOBJID, key: nat)
    requires fs.WindowOk() && Tracks(fs, obj, key)
    ensures ClusterList(fs.g, fs.chains[key])
  {
  }

  /** Only the allocation tables changed: no byte of a plain list did. */
  lemma PlainSectorsKept(g: Geometry, sys: set<nat>, v: seq<Sector>, w: seq<Sector>, ch: seq<nat>)
    requires g.Ok() && BitmapIsMeta(g, sys) && ClusterList(g, ch) && PlainData(sys, ch)
    requires |v| == g.total && SameOutsideTables(g, v, w)
    ensures forall q: nat :: q < g.csize * |ch| ==> 0 <= SectorOf(g, ch, q) < |v| && w[SectorOf(g, ch, q)] == v[SectorOf(g, ch, q)]
  {
    forall q: nat | q < g.csize * |ch|
      ensures 0 <= SectorOf(g, ch, q) < |v| && w[SectorOf(g, ch, q)] == v[SectorOf(g, ch, q)]
    {
      hide ClusterList, PlainData, SectorOf, Geometry.Ok, Geometry.Meta;
      FileSectorIsData(g, sys, ch, q);
    }
  }

  lemma OverlaidOutside(g: Geometry, v: seq<Sector>, w: seq<Sector>, dirty: bool, sect: nat, b: seq<byte>)
    requires SameOutsideTables(g, v, w)
    ensures SameOutsideTables(g, Overlaid(v, dirty, sect, b), Overlaid(w, dirty, sect, b))
    ensures |Overlaid(v, dirty, sect, b)| == |v|
  {
  }

  /** The file's contents survive changes of the allocation tables and of the end of its list. */
  lemma DataKept(g: Geometry, sys: set<nat>, v: seq<Sector>, w: seq<Sector>, ch: seq<nat>, ch': seq<nat>, size: nat,
                 dirty: bool, sect: nat, b: seq<byte>)
    requires g.Ok() && BitmapIsMeta(g, sys) && ClusterList(g, ch) && ClusterList(g, ch') && ch <= ch' && PlainData(sys, ch)
    requires Holds(g, ch, size) && |v| == g.total && SameOutsideTables(g, v, w)
    ensures Holds(g, ch', size) && |Overlaid(v, dirty, sect, b)| == |Overlaid(w, dirty, sect, b)| == g.total
    ensures Content(g, Overlaid(w, dirty, sect, b), ch', size) == Content(g, Overlaid(v, dirty, sect, b), ch, size)
  {
    hide Overlaid, SectorOf, ClusterList, PlainData, Geometry.Ok, Geometry.Meta;
    OverlaidOutside(g, v, w, dirty, sect, b);
    PlainSectorsKept(g, sys, Overlaid(v, dirty, sect, b), Overlaid(w, dirty, sect, b), ch);
    ContentKept(g, Overlaid(v, dirty, sect, b), Overlaid(w, dirty, sect, b), ch, ch', size);
  }

  // The size of the file once byte p is written.
  function SizeWith(size: nat, p: nat): nat {
    if p + 1 > size then p + 1 else size
  }

  /** clst is the cluster of the byte at the cursor, so that byte can be written. */
  ghost predicate ReadyWith(fp: FIL, clst: nat)
    reads fp`fptr, fp`sect, fp`sq, fp`dirty, fp`err, fp.obj, fp.fs, fp.fs.win, fp.buf
  {
    && fp.Base() && fp.Tracked() && fp.err == OK
    && ReadyAt(fp.fs.g, fp.obj.Status(), fp.List(), fp.obj.objsize, fp.fptr, clst, fp.sect, fp.sq)
    && Buffered(fp.fs.View(), fp.sect, fp.dirty, fp.buf[..])
  }

  ghost predicate Ready(fp: FIL)
    reads fp, fp.obj, fp.fs, fp.fs.win, fp.buf
  {
    ReadyWith(fp, fp.clust)
  }

  ghost predicate ReadyAt(g: Geometry, a: Alloc, ch: seq<nat>, size: nat, fptr: nat, clust: nat, sect: nat, sq: nat) {
    && g.csize > 0 && fptr <= size && Holds(g, ch, size)
    && ClusterIndex(g, fptr) < |ch| && clust == ch[ClusterIndex(g, fptr)]
    && Sized(g, a, ch, SizeWith(size, fptr), ClusterIndex(g, fptr))
    && (sect != 0 ==> sq < g.csize * |ch| && sect == SectorOf(g, ch, sq))
    && (fptr % SECTOR_SIZE != 0 ==> sect != 0 && sq == fptr / SECTOR_SIZE)
  }

  /** Away from cluster boundaries an open file is ready. */
  lemma InsideIsReady(fp: FIL)
    requires fp.Ok() && !fp.Empty() && fp.fptr > 0
    requires fp.fptr % SECTOR_SIZE != 0 || fp.fptr / SECTOR_SIZE % fp.fs.g.csize != 0
    ensures Ready(fp)
  {
    hide FATFS.Valid, Denotes, SectorOf, ClusterIndex;
    IndexBefore(fp.fs.g, fp.fptr);
  }

  // f_write, cluster change: from the start of the list.
  lemma FirstClusterReady(fp: FIL)
    requires fp.Ok() && !fp.Empty() && fp.fptr == 0
    ensures |fp.List()| > 0 && fp.List()[0] == fp.obj.sclust && fp.fs.g.IsCluster(fp.obj.sclust)
    ensures ReadyWith(fp, fp.obj.sclust)
  {
    hide FATFS.TableOk, SectorOf;
    TrackedList(fp.fs, fp.obj, fp.obj.sclust);
    IndexZero(fp.fs.g);
  }

  lemma IndexZero(g: Geometry)
    requires g.csize > 0
    ensures ClusterIndex(g, 0) == 0
  {
  }

  lemma NextReady(g: Geometry, a: Alloc, ch: seq<nat>, size: nat, fptr: nat, clust: nat, sect: nat, sq: nat, at: int)
    requires g.csize > 0 && fptr > 0 && Placed(g, ch, size, fptr, clust, sect, sq)
    requires fptr % SECTOR_SIZE == 0 && fptr / SECTOR_SIZE % g.csize == 0
    requires at == ClusterIndex(g, fptr - 1) && at + 1 < |ch| && Sized(g, a, ch, size, at)
    ensures ReadyAt(g, a, ch, size, fptr, ch[at + 1], sect, sq)
  {
    hide SectorOf, Holds;
    IndexBefore(g, fptr);
    hide ClusterIndex;
  }

  lemma GrownReady(g: Geometry, a: Alloc, ch: seq<nat>, size: nat, fptr: nat, clust: nat, sect: nat, sq: nat, at: int, c: nat)
    requires g.csize > 0 && fptr > 0 && Placed(g, ch, size, fptr, clust, sect, sq)
    requires fptr % SECTOR_SIZE == 0 && fptr / SECTOR_SIZE % g.csize == 0
    requires at == ClusterIndex(g, fptr - 1) && at + 1 == |ch|
    ensures ReadyAt(g, a, ch + [c], size, fptr, c, sect, sq)
  {
    IndexBefore(g, fptr);
    HoldsPrefix(g, ch, ch + [c], size);
    assert size == fptr;
    if sect != 0 {
      SectorOfPrefix(g, ch, ch + [c], sq);
    }
    hide ClusterIndex, SectorOf, Holds;
  }

  // The buffered sector does not change with the allocation tables.
  lemma BufferKept(g: Geometry, sys: set<nat>, v: seq<Sector>, w: seq<Sector>, ch: seq<nat>, sect: nat, sq: nat, dirty: bool, b: seq<byte>)
    requires g.Ok() && BitmapIsMeta(g, sys) && ClusterList(g, ch) && PlainData(sys, ch) && BufferPlaced(g, ch, sect, sq)
    requires |v| == g.total && SameOutsideTables(g, v, w) && Buffered(v, sect, dirty, b)
    ensures Buffered(w, sect, dirty, b)
  {
    if sect != 0 {
      PlainSectorsKept(g, sys, v, w, ch);
    }
  }

  /** The buffered sector, if there is one, is sector sq of the file. */
  ghost predicate BufferPlaced(g: Geometry, ch: seq<nat>, sect: nat, sq: nat) {
    g.csize > 0 && (sect != 0 ==> sq < g.csize * |ch| && sect == SectorOf(g, ch, sq))
  }

  lemma BaseParts(fp: FIL)
    requires fp.Base()
    ensures fp.fs.g.Ok() && fp.fs.g.csize > 0 && Disjoint(fp.fs.g, fp.fs.chains) && (fp.fs.g.fsType == EXFAT ==> BitmapIsMeta(fp.fs.g, fp.fs.sys))
    ensures forall c :: c in fp.fs.sys ==> Owned(fp.fs.chains, c)
  {
  }

  // Clusters that were free hold no metadata.
  lemma GrownPlain(g: Geometry, before: ClusterLists, now: ClusterLists, sys: set<nat>, key: nat, c: nat)
    requires key in before && key != 0 && PlainData(sys, before[key]) && forall c :: c in sys ==> Owned(before, c)
    requires now == before || (!Owned(before, c) && now == Grown(before, key, c))
    ensures key in now && PlainData(sys, now[key]) && before[key] <= now[key]
    ensures now == before || ListGrew(before, now, key)
  {
    hide Owned;
    if now != before {
      GrownGrew(before, key, c);
    }
  }

  // f_write, cluster change: the cluster behind the current one, allocated if need be.
  method FollowCluster(fp: FIL) returns (clst: dword)
    requires fp.Ok() && !fp.Empty() && fp.fptr > 0
    requires fp.fptr % SECTOR_SIZE == 0 && fp.fptr / SECTOR_SIZE % fp.fs.g.csize == 0
    modifies fp.fs, fp.fs.win, fp.obj`stat, fp.obj`nCont, fp.obj`nFrag
    ensures fp.fs.WindowOk() && fp.fs.sys == old(fp.fs.sys) && TablesOnly(fp.fs.g, fp.List(), old(fp.fs.View()), fp.fs.View())
    ensures fp.fs.chains == old(fp.fs.chains) || ListGrew(old(fp.fs.chains), fp.fs.chains, fp.obj.sclust)
    ensures old(fp.List()) <= fp.List() && (old(fp.obj.sclust) != 0 ==> fp.obj.sclust == old(fp.obj.sclust))
    ensures clst == IO_ERROR ==> fp.fs.faulted
    ensures clst != BAD && old(fp.List()) <= fp.List()
    ensures clst == 0 ==> fp.Ok() && fp.fs.chains == old(fp.fs.chains) && fp.obj.Status() == old(fp.obj.Status())
    ensures clst == 0 ==> FreeClusters(fp.fs.g, fp.fs.chains) == {} && fp.fptr == SECTOR_SIZE * (fp.fs.g.csize * |fp.List()|)
    ensures clst > 1 && clst != IO_ERROR ==> ReadyWith(fp, clst)
    ensures old(fp.fs.faulted) ==> fp.fs.faulted
    ensures Noted(old(fp.fs.freeClst), old(fp.fs.fsiFlag), fp.fs.freeClst, fp.fs.fsiFlag)
  {
    hide FatTable.Links, FatTable.Bits, FatBytes, BitmapBytes, Mirrored, Overlaid, FatAgrees, BitsAgree, SectorOf, ClusterIndex, Denotes, FreeClusters, Owned;
    hide FATFS.ListsOk, FATFS.TableOk, Placed, Sized, ReadyAt, Buffered, Holds, ClusterList, PlainData, Answers, Geometry.Ok, BufferPlaced;
    OkParts(fp);
    BaseParts(fp);
    ghost var g, key, at, ch, size := fp.fs.g, fp.obj.sclust, ClusterIndex(fp.fs.g, fp.fptr - 1), fp.List(), fp.obj.objsize;
    ghost var a, v := fp.obj.Status(), fp.fs.View();
    FollowsAnswers(fp);
    ValidEntry(g, fp.fs.chains, key, at);
    if at + 1 < |ch| {
      NextReady(g, a, ch, size, fp.fptr, fp.clust, fp.sect, fp.sq, at);
    }
    EndOfList(g, ch, size, fp.fptr, fp.clust, fp.sect, fp.sq, at);
    clst := CreateChain(fp.fs, fp.obj, fp.clust, key, at);
    if clst != IO_ERROR {
      BufferKept(g, fp.fs.sys, v, fp.fs.View(), ch, fp.sect, fp.sq, fp.dirty, fp.buf[..]);
      if clst > 1 {
        GrownPlain(g, old(fp.fs.chains), fp.fs.chains, fp.fs.sys, key, clst);
        if at + 1 >= |ch| {
          GrownReady(g, fp.obj.Status(), ch, size, fp.fptr, fp.clust, fp.sect, fp.sq, at, clst);
        }
      }
    }
  }

  // On a cluster boundary, the end of the last cluster is where the cursor is.
  lemma EndOfList(g: Geometry, ch: seq<nat>, size: nat, fptr: nat, clust: nat, sect: nat, sq: nat, at: int)
    requires g.csize > 0 && fptr > 0 && Placed(g, ch, size, fptr, clust, sect, sq) && at == ClusterIndex(g, fptr - 1)
    requires fptr % SECTOR_SIZE == 0 && fptr / SECTOR_SIZE % g.csize == 0
    ensures at + 1 == |ch| ==> fptr == SECTOR_SIZE * (g.csize * |ch|)
  {
    IndexBefore(g, fptr);
  }

  lemma FollowsAnswers(fp: FIL)
    requires fp.Ok() && !fp.Empty() && fp.fptr > 0
    ensures var at := ClusterIndex(fp.fs.g, fp.fptr - 1);
            ListedAt(fp.fs.chains, fp.obj.sclust, at, fp.clust) && Answers(fp.fs.g, fp.obj.Status(), fp.List(), at)
  {
    hide FATFS.TableOk, SectorOf;
  }

  // f_write on an empty file: its first cluster.
  method FirstCluster(fp: FIL) returns (clst: dword)
    requires fp.Ok() && fp.Empty()
    modifies fp.fs, fp.fs.win, fp.obj`stat, fp.obj`nCont, fp.obj`nFrag, fp.obj`sclust
    ensures fp.fs.WindowOk() && fp.fs.sys == old(fp.fs.sys) && TablesOnly(fp.fs.g, fp.List(), old(fp.fs.View()), fp.fs.View())
    ensures clst == IO_ERROR ==> fp.fs.faulted && fp.fs.chains == old(fp.fs.chains) && fp.obj.sclust == 0
    ensures old(fp.List()) == []
    ensures clst != BAD && (clst == 0 ==> fp.Ok() && fp.fs.chains == old(fp.fs.chains) && fp.obj.Status() == old(fp.obj.Status()))
    ensures clst == 0 ==> FreeClusters(fp.fs.g, fp.fs.chains) == {} && fp.List() == []
    ensures clst > 1 && clst != IO_ERROR ==>
              fp.obj.sclust == clst && ReadyWith(fp, clst) && ListGrew(old(fp.fs.chains), fp.fs.chains, clst) && fp.List() == [clst]
    ensures old(fp.fs.faulted) ==> fp.fs.faulted
    ensures Noted(old(fp.fs.freeClst), old(fp.fs.fsiFlag), fp.fs.freeClst, fp.fs.fsiFlag)
  {
    hide FatTable.Links, FatTable.Bits, FatBytes, BitmapBytes, Mirrored, Overlaid, FatAgrees, BitsAgree, SectorOf, Denotes, FreeClusters;
    NoListZero(fp.fs.g, fp.fs.chains);
    clst := CreateChain(fp.fs, fp.obj, 0, 0, 0);
    if clst > 1 && clst != IO_ERROR {
      NewIsUnlisted(fp.fs.g, old(fp.fs.chains), clst);
      fp.obj.sclust := clst;
      OneReady(fp.fs.g, fp.fs.Links(), fp.obj.Status(), clst, fp.sq);
      GrownGrew(old(fp.fs.chains), clst, clst);
    }
  }

  lemma NoListZero(g: Geometry, chains: ClusterLists)
    requires Disjoint(g, chains)
    ensures 0 !in chains
  {
    forall k | k in chains ensures k != 0 {
      assert g.IsCluster(chains[k][0]);
    }
  }

  lemma NewIsUnlisted(g: Geometry, chains: ClusterLists, c: nat)
    requires Disjoint(g, chains) && !Owned(chains, c)
    ensures c !in chains
  {
    forall k | k in chains ensures Owned(chains, k) {
      assert chains[k][0] in chains[k];
    }
  }

  lemma OneReady(g: Geometry, f: seq<dword>, a: Alloc, c: nat, sq: nat)
    requires g.Ok() && Denotes(g, f, a, [c]) && a.objsize == 0
    ensures ReadyAt(g, a, [c], 0, 0, c, 0, sq)
  {
    IndexZero(g);
    if g.fsType == EXFAT {
      assert a.nFrag != 0 ==> ClusterIndex(g, 0) == |[c]| - 1;
    }
  }

  lemma OneSector(g: Geometry, ch: seq<nat>, sect: nat, sq: nat)
    requires g.Ok() && BufferPlaced(g, ch, sect, sq) && sect != 0
    ensures RunOf(g, ch, sq, 1, sect)
  {
  }

  // Write the dirty buffer back.
  method FlushBuffer(fp: FIL) returns (res: FRESULT)
    requires fp.Base() && fp.Tracked() && BufferPlaced(fp.fs.g, fp.List(), fp.sect, fp.sq)
    requires Buffered(fp.fs.View(), fp.sect, fp.dirty, fp.buf[..])
    modifies fp.fs`disk, fp.fs`faulted, fp`dirty
    ensures fp.Base() && fp.Tracked() && fp.fs.Links() == old(fp.fs.Links())
    ensures SameElsewhere(fp.fs.g, fp.List(), old(fp.fs.View()), fp.fs.View())
    ensures res == OK ==> !fp.dirty && fp.View() == old(fp.View()) && Buffered(fp.fs.View(), fp.sect, false, fp.buf[..])
    ensures res != OK ==> res == DISK_ERR && fp.fs.faulted
    ensures old(fp.fs.faulted) ==> fp.fs.faulted
  {
    hide FatTable.Links, FatTable.Bits, FatBytes, BitmapBytes, Mirrored, FatAgrees, BitsAgree, SectorOf, Denotes, FATFS.ListsOk, FATFS.TableOk, RunOf;
    res := OK;
    TrackedList(fp.fs, fp.obj, fp.obj.sclust);
    if fp.dirty {
      OneSector(fp.fs.g, fp.List(), fp.sect, fp.sq);
      ghost var v := fp.fs.View();
      var ok := WriteSectors(fp.fs, fp.sect, [fp.buf[..]], fp.List(), fp.sq);
      if ok {
        fp.dirty := false;
        assert fp.fs.View() == v[fp.sect := fp.buf[..]];
      } else {
        res := DISK_ERR;
      }
    }
  }

  // Load a sector of the file into the clean buffer.
  method LoadBuffer(fp: FIL, sect: nat, ghost q: nat) returns (res: FRESULT)
    requires fp.Base() && fp.Tracked() && !fp.dirty && RunOf(fp.fs.g, fp.List(), q, 1, sect)
    modifies fp.fs`faulted, fp.buf
    ensures fp.Base() && fp.Tracked() && fp.fs.View() == old(fp.fs.View()) && fp.View() == old(fp.View())
    ensures res == OK ==> sect < |fp.fs.View()| && fp.buf[..] == fp.fs.View()[sect]
    ensures res != OK ==> res == DISK_ERR && fp.fs.faulted
    ensures old(fp.fs.faulted) ==> fp.fs.faulted
  {
    hide FatTable.Links, FatTable.Bits, FatBytes, BitmapBytes, Mirrored, FatAgrees, BitsAgree, SectorOf, Denotes, FATFS.ListsOk, FATFS.TableOk, RunOf;
    TrackedList(fp.fs, fp.obj, fp.obj.sclust);
    res := OK;
    var ok, data := ReadSectors(fp.fs, sect, 1, fp.List(), q);
    if ok {
      var d := data[0];
      forall i | 0 <= i < SECTOR_SIZE { fp.buf[i] := d[i]; }
      assert fp.buf[..] == d;
    } else {
      res := DISK_ERR;
    }
  }

  /** What changes only the file's clusters and the tables, and marks a changed count, keeps the promise of
      the FSInfo sector. */
  twostate lemma InfoElsewhere(fp: FIL)
    requires old(fp.fs.WindowOk()) && fp.fs.WindowOk() && (old(fp.fs.faulted) ==> fp.fs.faulted)
    requires SameElsewhere(fp.fs.g, fp.List(), old(fp.fs.View()), fp.fs.View())
    requires forall c :: c in fp.List() ==> fp.fs.g.IsCluster(c)
    requires Noted(old(fp.fs.freeClst), old(fp.fs.fsiFlag), fp.fs.freeClst, fp.fs.fsiFlag)
    ensures old(InfoOk(fp.fs)) ==> InfoOk(fp.fs)
  {
    hide InfoOk, FATFS.WindowOk, LinksElsewhere;
    FrontElsewhere(fp.fs.g, fp.List(), old(fp.fs.View()), fp.fs.View());
    InfoKept(fp.fs);
  }

  // The sectors in front of the FATs belong to no file.
  lemma FrontElsewhere(g: Geometry, ch: seq<nat>, v: seq<Sector>, w: seq<Sector>)
    requires g.Ok() && |v| == g.total && SameElsewhere(g, ch, v, w) && forall c :: c in ch ==> g.IsCluster(c)
    ensures forall s :: 0 <= s < g.fatbase && s < |v| ==> w[s] == v[s]
  {
    hide LinksElsewhere;
    FatInside(g);
    forall s | 0 <= s < g.fatbase && s < |v| ensures !InList(g, ch, s) && !g.InTables(s) {
      forall i | 0 <= i < |ch| ensures !g.InCluster(ch[i], s) {
        ClusterBounds(g, ch[i]);
      }
    }
  }

  /** From before to now only list key changed, by taking in clusters that were free. */
  ghost predicate ListGrew(before: ClusterLists, now: ClusterLists, key: nat) {
    && key != 0 && key in now && now.Keys == before.Keys + {key}
    && (forall k :: k in before && k != key ==> now[k] == before[k])
    && (key in before ==> before[key] <= now[key])
    && (forall c :: c in now[key] ==> (key in before && c in before[key]) || !Owned(before, c))
  }

  lemma OwnedGrew(a: ClusterLists, b: ClusterLists, key: nat, x: nat)
    requires (a == b || ListGrew(a, b, key)) && Owned(a, x)
    ensures Owned(b, x)
  {
    var k :| k in a && x in a[k];
    if a != b && k == key {
      assert a[key] <= b[key];
    }
    assert x in b[k];
  }

  lemma ListGrewTwice(a: ClusterLists, b: ClusterLists, c: ClusterLists, key: nat)
    requires (a == b || ListGrew(a, b, key)) && (b == c || ListGrew(b, c, key))
    ensures a == c || ListGrew(a, c, key)
  {
    if a != b && b != c {
      forall x | x in c[key] ensures (key in a && x in a[key]) || !Owned(a, x) {
        if Owned(a, x) {
          OwnedGrew(a, b, key, x);
        }
      }
    }
  }

  lemma GrownGrew(chains: ClusterLists, key: nat, c: nat)
    requires !Owned(chains, c) && (key in chains || key == c) && key != 0
    ensures ListGrew(chains, Grown(chains, key, c), key)
  {
  }

  // f_read and f_write in fast seek mode, cluster change: the cluster at the cursor, 0 behind the last one.
  method MappedCluster(fp: FIL) returns (clst: nat)
    requires fp.Ok() && !fp.Empty() && fp.fptr > 0 && fp.cltbl != null && Mapped(fp)
    requires fp.fptr % SECTOR_SIZE == 0 && fp.fptr / SECTOR_SIZE % fp.fs.g.csize == 0
    ensures clst == 0 || fp.fs.g.IsCluster(clst)
    ensures clst == 0 <==> ClusterIndex(fp.fs.g, fp.fptr) >= |fp.List()|
    ensures clst == 0 ==> fp.fptr == SECTOR_SIZE * (fp.fs.g.csize * |fp.List()|)
    ensures clst > 0 ==> ReadyWith(fp, clst)
  {
    hide FatTable.Links, FatTable.Bits, FatBytes, BitmapBytes, Mirrored, Overlaid, FatAgrees, BitsAgree, SectorOf, ClusterIndex, Denotes, FreeClusters, Owned;
    hide FATFS.ListsOk, FATFS.TableOk, PlainData, Buffered, Holds, MapOf;
    ghost var g, at, ch := fp.fs.g, ClusterIndex(fp.fs.g, fp.fptr - 1), fp.List();
    FollowsAnswers(fp);
    OkParts(fp);
    BaseParts(fp);
    IndexBefore(g, fp.fptr);
    ListFits(g, ch);
    ValidEntry(g, fp.fs.chains, fp.obj.sclust, at);
    EndOfList(g, ch, fp.obj.objsize, fp.fptr, fp.clust, fp.sect, fp.sq, at);
    if at + 1 < |ch| {
      NextReady(g, fp.obj.Status(), ch, fp.obj.objsize, fp.fptr, fp.clust, fp.sect, fp.sq, at);
    }
    hide Placed, Sized, ReadyAt, BufferPlaced;
    SmallMod(at + 1, 0x1_0000_0000);
    clst := ClmtClust(fp.fs.g, fp.cltbl, fp.fptr, if MapOf(fp.cltbl, ch) then ch else []);
  }

  lemma TablesOnlyRefl(g: Geometry, ch: seq<nat>, v: seq<Sector>)
    ensures TablesOnly(g, ch, v, v)
  {
  }

  /** The file cannot grow: the cursor is at the end of its last cluster, and no cluster is free, or the
      file is in fast seek mode. */
  ghost predicate Exhausted(fp: FIL)
    reads fp`fptr, fp`cltbl, fp.obj`sclust, fp.fs`chains
  {
    && fp.fptr == SECTOR_SIZE * (fp.fs.g.csize * |fp.List()|)
    && (FreeClusters(fp.fs.g, fp.fs.chains) == {} || (fp.cltbl != null && fp.obj.sclust != 0))
  }

  // f_write, cluster change.
  method NextCluster(fp: FIL) returns (res: FRESULT, full: bool)
    requires fp.Ok() && Mapped(fp) && fp.fptr % SECTOR_SIZE == 0 && fp.fptr / SECTOR_SIZE % fp.fs.g.csize == 0
    modifies fp.fs, fp.fs.win, fp.obj`stat, fp.obj`nCont, fp.obj`nFrag, fp.obj`sclust, fp`clust
    ensures fp.fs.WindowOk() && fp.fs.sys == old(fp.fs.sys) && TablesOnly(fp.fs.g, fp.List(), old(fp.fs.View()), fp.fs.View())
    ensures fp.fs.chains == old(fp.fs.chains) || ListGrew(old(fp.fs.chains), fp.fs.chains, fp.obj.sclust)
    ensures old(fp.List()) <= fp.List() && (old(fp.obj.sclust) != 0 ==> fp.obj.sclust == old(fp.obj.sclust))
    ensures res == OK && full ==> fp.Ok() && fp.obj.Status() == old(fp.obj.Status()) && fp.fs.chains == old(fp.fs.chains)
    ensures res == OK && full ==> Exhausted(fp)
    ensures res == OK ==> Mapped(fp)
    ensures fp.cltbl != null && old(fp.obj.sclust) != 0 ==> fp.fs.chains == old(fp.fs.chains)
    ensures res == OK && !full ==> Ready(fp)
    ensures res == OK && !full ==> if old(fp.Empty()) then fp.obj.objsize == 0 else fp.obj.sclust == old(fp.obj.sclust) && old(fp.List()) <= fp.List()
    ensures res != OK ==> res == DISK_ERR && fp.fs.faulted
    ensures old(fp.fs.faulted) ==> fp.fs.faulted
    ensures Noted(old(fp.fs.freeClst), old(fp.fs.fsiFlag), fp.fs.freeClst, fp.fs.fsiFlag)
  {
    hide FatTable.Links, FatTable.Bits, FatBytes, BitmapBytes, Mirrored, Overlaid, FatAgrees, BitsAgree, SectorOf, ClusterIndex, Denotes, FreeClusters;
    hide ListGrew, Owned, ReadyWith, FATFS.TableOk, MapOf;
    res, full := OK, false;
    var clst: dword;
    if fp.fptr == 0 {
      clst := fp.obj.sclust;
      if clst == 0 {
        clst := FirstCluster(fp);
      } else {
        FirstClusterReady(fp);
      }
    } else if fp.cltbl != null {
      clst := MappedCluster(fp);
      TablesOnlyRefl(fp.fs.g, fp.List(), fp.fs.View());
    } else {
      clst := FollowCluster(fp);
    }
    if clst == 0 {
      return OK, true;
    }
    if clst == BAD {
      return INT_ERR, false;
    }
    if clst == IO_ERROR {
      return DISK_ERR, false;
    }
    fp.clust := clst;
  }

  lemma OutsideIsElsewhere(g: Geometry, ch: seq<nat>, v: seq<Sector>, w: seq<Sector>)
    requires TablesOnly(g, ch, v, w)
    ensures SameElsewhere(g, ch, v, w) && SameOutsideTables(g, v, w)
  {
    hide LinksElsewhere, Geometry.InTables, InList;
  }

  // f_write, cluster change, with what it means for the contents.
  method EnterCluster(fp: FIL) returns (res: FRESULT, full: bool)
    requires fp.Ok() && Mapped(fp) && fp.fptr % SECTOR_SIZE == 0
    modifies fp.fs, fp.fs.win, fp.obj`stat, fp.obj`nCont, fp.obj`nFrag, fp.obj`sclust, fp`clust
    ensures fp.fs.WindowOk() && fp.fs.sys == old(fp.fs.sys) && SameElsewhere(fp.fs.g, fp.List(), old(fp.fs.View()), fp.fs.View())
    ensures fp.fs.chains == old(fp.fs.chains) || ListGrew(old(fp.fs.chains), fp.fs.chains, fp.obj.sclust)
    ensures old(fp.List()) <= fp.List() && (old(fp.obj.sclust) != 0 ==> fp.obj.sclust == old(fp.obj.sclust))
    ensures res == OK && full ==> fp.Ok() && Exhausted(fp)
    ensures res == OK ==> Mapped(fp)
    ensures fp.cltbl != null && old(fp.obj.sclust) != 0 ==> fp.fs.chains == old(fp.fs.chains)
    ensures res == OK && !full ==> Ready(fp)
    ensures res == OK ==> fp.Data() == old(fp.Data())
    ensures res != OK ==> res == DISK_ERR && fp.fs.faulted
    ensures old(fp.fs.faulted) ==> fp.fs.faulted
    ensures Noted(old(fp.fs.freeClst), old(fp.fs.fsiFlag), fp.fs.freeClst, fp.fs.fsiFlag)
  {
    hide FatTable.Links, FatTable.Bits, FatBytes, BitmapBytes, Mirrored, Overlaid, FatAgrees, BitsAgree, SectorOf, ClusterIndex, Denotes, FreeClusters;
    hide ListGrew, Owned, FATFS.TableOk, FATFS.ListsOk, Content, FIL.Ok, Ready, Placed, Sized, Buffered;
    hide SameElsewhere, Geometry.Ok, ClusterList, PlainData, BufferPlaced, BitmapIsMeta, Holds, FATFS.WindowOk, FATFS.Valid, Mapped, Exhausted;
    OkParts(fp);
    BaseMeta(fp);
    res, full := OK, false;
    ghost var ch, v, d := fp.List(), fp.fs.View(), fp.Data();
    if fp.fptr / SECTOR_SIZE % fp.fs.g.csize == 0 {
      ghost var empty := fp.Empty();
      res, full := NextCluster(fp);
      OutsideIsElsewhere(fp.fs.g, fp.List(), v, fp.fs.View());
      if res == OK && !full {
        ReadyParts(fp);
      } else if res == OK {
        OkParts(fp);
      }
      if res == OK && !empty {
        DataKept(fp.fs.g, fp.fs.sys, v, fp.fs.View(), ch, fp.List(), fp.obj.objsize, fp.dirty, fp.sect, fp.buf[..]);
      }
    } else {
      InsideIsReady(fp);
      SameElsewhereRefl(fp.fs.g, fp.List(), v);
    }
  }

  lemma BaseMeta(fp: FIL)
    requires fp.Base()
    ensures fp.fs.g.Ok() && BitmapIsMeta(fp.fs.g, fp.fs.sys)
  {
  }

  lemma OkParts(fp: FIL)
    requires fp.Ok()
    ensures fp.Base() && fp.err == OK && (fp.Empty() || (fp.Tracked() && Holds(fp.fs.g, fp.List(), fp.obj.objsize)))
    ensures fp.fptr <= fp.obj.objsize
    ensures !fp.Empty() ==> ClusterList(fp.fs.g, fp.List()) && BufferPlaced(fp.fs.g, fp.List(), fp.sect, fp.sq)
    ensures fp.fs.g.fsType == EXFAT ==> BitmapIsMeta(fp.fs.g, fp.fs.sys)
    ensures fp.Empty() ==> fp.obj.sclust == 0
  {
  }

  lemma ReadyParts(fp: FIL)
    requires Ready(fp)
    ensures fp.Base() && fp.err == OK && fp.Tracked() && Holds(fp.fs.g, fp.List(), fp.obj.objsize) && fp.fptr <= fp.obj.objsize
    ensures ClusterList(fp.fs.g, fp.List()) && BufferPlaced(fp.fs.g, fp.List(), fp.sect, fp.sq)
    ensures fp.fs.g.fsType == EXFAT ==> BitmapIsMeta(fp.fs.g, fp.fs.sys)
    ensures Buffered(fp.fs.View(), fp.sect, fp.dirty, fp.buf[..])
  {
  }

  lemma SameElsewhereRefl(g: Geometry, ch: seq<nat>, v: seq<Sector>)
    ensures SameElsewhere(g, ch, v, v)
  {
  }

  // The sector of the cursor is in its cluster, and more follow up to the end of the cluster.
  lemma CursorSector(g: Geometry, ch: seq<nat>, p: nat, clust: nat)
    requires g.Ok() && ClusterList(g, ch) && ClusterIndex(g, p) < |ch| && clust == ch[ClusterIndex(g, p)]
    ensures p / SECTOR_SIZE < g.csize * |ch|
    ensures g.ToSector(clust) > 0 && g.ToSector(clust) + p / SECTOR_SIZE % g.csize == SectorOf(g, ch, p / SECTOR_SIZE)
  {
    var q := p / SECTOR_SIZE;
    MulLe(g.csize, q / g.csize + 1, |ch|);
    MulSucc(g.csize, q / g.csize);
    ClusterBounds(g, clust);
  }

  // f_write on a sector boundary: find the cluster, write the old buffer back, find the sector.
  method PrepareSector(fp: FIL) returns (res: FRESULT, full: bool, sect: nat)
    requires fp.Ok() && Mapped(fp) && fp.fptr % SECTOR_SIZE == 0
    modifies fp.fs, fp.fs.win, fp.obj`stat, fp.obj`nCont, fp.obj`nFrag, fp.obj`sclust, fp`clust, fp`dirty
    ensures fp.fs.WindowOk() && fp.fs.sys == old(fp.fs.sys) && SameElsewhere(fp.fs.g, fp.List(), old(fp.fs.View()), fp.fs.View())
    ensures fp.fs.chains == old(fp.fs.chains) || ListGrew(old(fp.fs.chains), fp.fs.chains, fp.obj.sclust)
    ensures old(fp.List()) <= fp.List() && (old(fp.obj.sclust) != 0 ==> fp.obj.sclust == old(fp.obj.sclust))
    ensures res == OK && full ==> fp.Ok() && Exhausted(fp)
    ensures res == OK ==> Mapped(fp)
    ensures fp.cltbl != null && old(fp.obj.sclust) != 0 ==> fp.fs.chains == old(fp.fs.chains)
    ensures res == OK && !full ==> Ready(fp) && !fp.dirty
    ensures res == OK && !full ==> fp.fptr / SECTOR_SIZE < fp.fs.g.csize * |fp.List()| && sect == SectorOf(fp.fs.g, fp.List(), fp.fptr / SECTOR_SIZE)
    ensures res == OK ==> fp.Data() == old(fp.Data())
    ensures res != OK ==> res == DISK_ERR && fp.fs.faulted
    ensures old(fp.fs.faulted) ==> fp.fs.faulted
    ensures Noted(old(fp.fs.freeClst), old(fp.fs.fsiFlag), fp.fs.freeClst, fp.fs.fsiFlag)
  {
    hide FatTable.Links, FatTable.Bits, FatBytes, BitmapBytes, Mirrored, Overlaid, FatAgrees, BitsAgree, SectorOf, Denotes, FreeClusters;
    hide ListGrew, Owned, FATFS.TableOk, FATFS.ListsOk, Content, FIL.Ok, Placed, Sized, Holds, Mapped, Exhausted;
    hide ReadyAt, SameElsewhere, Geometry.Ok, ClusterList, PlainData, BitmapIsMeta, BufferPlaced, ClusterIndex, FATFS.WindowOk, FATFS.Valid, FIL.Base, FIL.Tracked, FIL.Empty, Buffered;
    sect := 0;
    res, full := EnterCluster(fp);
    if res != OK || full {
      return;
    }
    ReadyParts(fp);
    ghost var v, l := fp.fs.View(), fp.View();
    res := FlushBuffer(fp);
    SameElsewhereTwice(fp.fs.g, fp.List(), old(fp.fs.View()), v, fp.fs.View());
    if res != OK {
      return;
    }
    res, sect := SectorAtCursor(fp);
  }

  function Larger(a: nat, b: nat): nat {
    if a > b then a else b
  }

  // Bytes p .. p+w-1 are in the cluster of byte p.
  ghost predicate WithinCluster(g: Geometry, p: nat, w: nat) {
    g.csize > 0 && w > 0 && forall i: nat :: p <= i < p + w ==> ClusterIndex(g, i) == ClusterIndex(g, p)
  }

  lemma Advanced(g: Geometry, a: Alloc, ch: seq<nat>, size: nat, p: nat, clust: nat, sect: nat, sq: nat, w: nat)
    requires ReadyAt(g, a, ch, size, p, clust, sect, sq) && WithinCluster(g, p, w) && Holds(g, ch, p + w)
    requires (p + w) % SECTOR_SIZE != 0 ==> sect != 0 && sq == (p + w) / SECTOR_SIZE
    ensures Placed(g, ch, Larger(p + w, size), p + w, clust, sect, sq)
    ensures Sized(g, a, ch, Larger(p + w, size), ClusterIndex(g, p + w - 1))
  {
    hide ClusterIndex, SectorOf;
    assert ClusterIndex(g, p + w - 1) == ClusterIndex(g, p);
    var size' := Larger(p + w, size);
    if size' == p + w && SizeWith(size, p) == size {
      assert ClusterIndex(g, size - 1) == ClusterIndex(g, p);
    }
  }

  lemma DenotesAnySize(g: Geometry, f: seq<dword>, a: Alloc, ch: seq<nat>, size: nat)
    requires Denotes(g, f, a, ch)
    ensures Denotes(g, f, a.(objsize := size), ch)
  {
  }

  // f_write, end of a round: move the cursor and the end of the file.
  method AdvanceBy(fp: FIL, w: nat)
    requires Ready(fp) && w > 0 && WithinCluster(fp.fs.g, fp.fptr, w) && Holds(fp.fs.g, fp.List(), fp.fptr + w)
    requires (fp.fptr + w) % SECTOR_SIZE != 0 ==> fp.sect != 0 && fp.sq == (fp.fptr + w) / SECTOR_SIZE
    modifies fp`fptr, fp.obj`objsize
    ensures fp.Ok() && !fp.Empty() && fp.fptr == old(fp.fptr) + w && fp.obj.objsize == Larger(fp.fptr, old(fp.obj.objsize))
    ensures fp.Data() == Content(fp.fs.g, fp.View(), fp.List(), fp.obj.objsize)
  {
    hide FatTable.Links, FatTable.Bits, FatBytes, BitmapBytes, Mirrored, Overlaid, FatAgrees, BitsAgree, SectorOf, Denotes;
    hide FATFS.TableOk, FATFS.ListsOk, Content, Placed, ReadyAt, Sized, Holds, ClusterIndex, WithinCluster;
    Advanced(fp.fs.g, fp.obj.Status(), fp.List(), fp.obj.objsize, fp.fptr, fp.clust, fp.sect, fp.sq, w);
    DenotesAnySize(fp.fs.g, fp.fs.Links(), fp.obj.Status(), fp.List(), Larger(fp.fptr + w, fp.obj.objsize));
    SizedAnySize(fp.fs.g, fp.obj.Status(), fp.List(), Larger(fp.fptr + w, fp.obj.objsize), ClusterIndex(fp.fs.g, fp.fptr + w - 1));
    fp.fptr := fp.fptr + w;
    if fp.fptr > fp.obj.objsize {
      fp.obj.objsize := fp.fptr;
    }
    OkParts(fp);
  }

  lemma SizedAnySize(g: Geometry, a: Alloc, ch: seq<nat>, size: nat, at: int)
    requires g.csize > 0 && Sized(g, a, ch, size, at)
    ensures Sized(g, a.(objsize := size), ch, size, at)
  {
  }

  lemma RunWithinCluster(g: Geometry, p: nat, n: nat)
    requires g.csize > 0 && p % SECTOR_SIZE == 0 && 0 < n && p / SECTOR_SIZE % g.csize + n <= g.csize
    ensures WithinCluster(g, p, n * SECTOR_SIZE)
  {
    forall i: nat | p <= i < p + n * SECTOR_SIZE ensures ClusterIndex(g, i) == ClusterIndex(g, p) {
      ChunkByte(i, p, n);
      BlockOffset(p / SECTOR_SIZE, g.csize, i / SECTOR_SIZE - p / SECTOR_SIZE);
    }
  }

  // disk_write of whole sectors of the current cluster, keeping a clean buffer up to date.
  method TransferSectors(fp: FIL, chunks: seq<Sector>, sect: nat) returns (res: FRESULT)
    requires Ready(fp) && !fp.dirty && RunOf(fp.fs.g, fp.List(), fp.fptr / SECTOR_SIZE, |chunks|, sect)
    modifies fp.fs`disk, fp.fs`faulted, fp`dirty, fp.buf
    ensures fp.fs.WindowOk() && SameElsewhere(fp.fs.g, fp.List(), old(fp.fs.View()), fp.fs.View())
    ensures res == OK ==> Ready(fp) && !fp.dirty && Replaced(old(fp.fs.View()), fp.fs.View(), sect, chunks)
    ensures res != OK ==> res == DISK_ERR && fp.fs.faulted
    ensures old(fp.fs.faulted) ==> fp.fs.faulted
  {
    hide FatTable.Links, FatTable.Bits, FatBytes, BitmapBytes, Mirrored, FatAgrees, BitsAgree, SectorOf, Denotes;
    hide FATFS.TableOk, FATFS.ListsOk, ReadyAt, InList, RunOf;
    ReadyParts(fp);
    res := OK;
    var ok := WriteSectors(fp.fs, sect, chunks, fp.List(), fp.fptr / SECTOR_SIZE);
    if !ok {
      return DISK_ERR;
    }
    if sect <= fp.sect < sect + |chunks| {
      var d := chunks[fp.sect - sect];
      forall i | 0 <= i < SECTOR_SIZE { fp.buf[i] := d[i]; }
      fp.dirty := false;
      assert fp.buf[..] == d;
    }
  }

  lemma AlignedEnd(p: nat, n: nat)
    requires p % SECTOR_SIZE == 0
    ensures (p + n * SECTOR_SIZE) % SECTOR_SIZE == 0
  {
    DivUnique(p + n * SECTOR_SIZE, SECTOR_SIZE, p / SECTOR_SIZE + n, 0);
  }

  lemma CleanView(fp: FIL)
    requires !fp.dirty
    ensures fp.View() == fp.fs.View()
  {
  }

  lemma DirectContent(g: Geometry, v: seq<Sector>, w: seq<Sector>, ch: seq<nat>, size: nat, p: nat, x: seq<byte>, n: nat)
    requires g.Ok() && |v| == |w| == g.total && ClusterList(g, ch) && Holds(g, ch, size) && p <= size
    requires p % SECTOR_SIZE == 0 && |x| == n * SECTOR_SIZE
    requires 0 < n && p / SECTOR_SIZE < g.csize * |ch| && p / SECTOR_SIZE % g.csize + n <= g.csize
    requires SectorOf(g, ch, p / SECTOR_SIZE) >= 0 && Replaced(v, w, SectorOf(g, ch, p / SECTOR_SIZE), Chunks(x, n))
    ensures Holds(g, ch, p + |x|) && Holds(g, ch, Larger(p + |x|, size)) && WithinCluster(g, p, |x|) && (p + |x|) % SECTOR_SIZE == 0
    ensures Content(g, w, ch, Larger(p + |x|, size)) == Overwrite(Content(g, v, ch, size), p, x)
  {
    hide Content, Replaced, Wrote, SectorOf, Chunks, ClusterList, Geometry.Ok, Holds, WithinCluster, Overwrite;
    RunWritten(g, v, w, ch, size, p, x, n);
    WroteContent(g, v, w, ch, size, p, x);
    RunWithinCluster(g, p, n);
    AlignedEnd(p, n);
  }

  // Number of sectors that f_write and f_read transfer directly: clipped at the cluster boundary.
  function DirectSectors(g: Geometry, fptr: nat, n: nat): (cc: nat)
    requires g.csize > 0 && n >= SECTOR_SIZE
    ensures 0 < cc && cc * SECTOR_SIZE <= n && fptr / SECTOR_SIZE % g.csize + cc <= g.csize
  {
    var csect := fptr / SECTOR_SIZE % g.csize;
    if csect + n / SECTOR_SIZE > g.csize then g.csize - csect else n / SECTOR_SIZE
  }

  // After a direct transfer: the bytes are in the file, the cursor moves on.
  method FinishDirect(fp: FIL, x: seq<byte>, ghost cc: nat, ghost sect: nat, ghost v: seq<Sector>)
    requires Ready(fp) && !fp.dirty && fp.fptr % SECTOR_SIZE == 0 && cc > 0 && |x| == cc * SECTOR_SIZE
    requires RunOf(fp.fs.g, fp.List(), fp.fptr / SECTOR_SIZE, cc, sect) && |v| == fp.fs.g.total
    requires Replaced(v, fp.fs.View(), sect, Chunks(x, cc))
    modifies fp`fptr, fp.obj`objsize
    ensures fp.Ok() && fp.fptr == old(fp.fptr) + |x| && Holds(fp.fs.g, fp.List(), old(fp.obj.objsize))
    ensures fp.Data() == Overwrite(Content(fp.fs.g, v, fp.List(), old(fp.obj.objsize)), old(fp.fptr), x)
  {
    hide FatTable.Links, FatTable.Bits, FatBytes, BitmapBytes, Mirrored, FatAgrees, BitsAgree, SectorOf, Denotes, Buffered, SameElsewhere, Replaced;
    hide FATFS.TableOk, FATFS.ListsOk, Content, Placed, Sized, Holds, ClusterIndex, WithinCluster, FIL.Ok, Overwrite, Chunks, Overlaid, Ready;
    ReadyParts(fp);
    CleanView(fp);
    DirectContent(fp.fs.g, v, fp.fs.View(), fp.List(), fp.obj.objsize, fp.fptr, x, cc);
    AdvanceBy(fp, |x|);
  }

  // f_write: transfer whole sectors from the caller's buffer, up to the end of the cluster.
  method WriteDirect(fp: FIL, data: seq<byte>, sect: nat) returns (res: FRESULT, wcnt: nat)
    requires Ready(fp) && !fp.dirty && fp.fptr % SECTOR_SIZE == 0 && |data| >= SECTOR_SIZE
    requires fp.fptr / SECTOR_SIZE < fp.fs.g.csize * |fp.List()| && sect == SectorOf(fp.fs.g, fp.List(), fp.fptr / SECTOR_SIZE)
    modifies fp.fs`disk, fp.fs`faulted, fp`fptr, fp`dirty, fp.obj`objsize, fp.buf
    ensures fp.fs.WindowOk() && SameElsewhere(fp.fs.g, fp.List(), old(fp.fs.View()), fp.fs.View())
    ensures res == OK ==> fp.Ok() && 0 < wcnt <= |data| && fp.fptr == old(fp.fptr) + wcnt
    ensures res == OK ==> fp.Data() == Overwrite(old(fp.Data()), old(fp.fptr), data[..wcnt])
    ensures res != OK ==> res == DISK_ERR && fp.fs.faulted
    ensures old(fp.fs.faulted) ==> fp.fs.faulted
  {
    hide FatTable.Links, FatTable.Bits, FatBytes, BitmapBytes, Mirrored, FatAgrees, BitsAgree, SectorOf, Denotes, Buffered, SameElsewhere, Replaced;
    hide FATFS.TableOk, FATFS.ListsOk, Content, Placed, Sized, Holds, ClusterIndex, FIL.Ok, Overwrite, Chunks, Overlaid, Ready, DirectSectors;
    ReadyParts(fp);
    CleanView(fp);
    ghost var v := fp.fs.View();
    var cc := DirectSectors(fp.fs.g, fp.fptr, |data|);
    wcnt := cc * SECTOR_SIZE;
    res := TransferSectors(fp, Chunks(data[..wcnt], cc), sect);
    if res == OK {
      FinishDirect(fp, data[..wcnt], cc, sect, v);
    }
  }

  /** The buffer stands for the sector of the cursor; its contents are current, or the file
      ends where the sector begins. */
  ghost predicate BufferAtCursor(fp: FIL)
    reads fp, fp.obj, fp.fs, fp.fs.win, fp.buf
    ensures BufferAtCursor(fp) ==> fp.sect < |fp.View()|
  {
    && fp.Base() && fp.Tracked() && fp.err == OK
    && ReadyAt(fp.fs.g, fp.obj.Status(), fp.List(), fp.obj.objsize, fp.fptr, fp.clust, fp.sect, fp.sq)
    && 0 < fp.sect < fp.fs.g.total && fp.sq == fp.fptr / SECTOR_SIZE
    && (fp.dirty || (fp.fs.View()[fp.sect] == fp.buf[..])
        || (fp.fptr % SECTOR_SIZE == 0 && fp.obj.objsize <= fp.fptr))
  }

  // f_write on a sector boundary: make the buffer stand for the sector.
  method FillBuffer(fp: FIL, sect: nat) returns (res: FRESULT)
    requires Ready(fp) && !fp.dirty && fp.fptr % SECTOR_SIZE == 0
    requires fp.fptr / SECTOR_SIZE < fp.fs.g.csize * |fp.List()| && sect == SectorOf(fp.fs.g, fp.List(), fp.fptr / SECTOR_SIZE)
    modifies fp.fs`faulted, fp`sect, fp`sq, fp.buf
    ensures fp.fs.WindowOk() && fp.fs.View() == old(fp.fs.View())
    ensures res == OK ==> BufferAtCursor(fp) && fp.View() == old(fp.View())
    ensures res != OK ==> res == DISK_ERR && fp.fs.faulted
    ensures old(fp.fs.faulted) ==> fp.fs.faulted
  {
    hide FatTable.Links, FatTable.Bits, FatBytes, BitmapBytes, Mirrored, FatAgrees, BitsAgree, SectorOf, Denotes;
    hide FATFS.TableOk, FATFS.ListsOk, Sized, Holds, ClusterIndex;
    res := OK;
    ReadyParts(fp);
    FileSectorIsData(fp.fs.g, fp.fs.sys, fp.List(), fp.fptr / SECTOR_SIZE);
    if fp.sect != sect && fp.fptr < fp.obj.objsize {
      OneSector(fp.fs.g, fp.List(), sect, fp.fptr / SECTOR_SIZE);
      res := LoadBuffer(fp, sect, fp.fptr / SECTOR_SIZE);
      if res != OK {
        return;
      }
    }
    fp.sect := sect;
    fp.sq := fp.fptr / SECTOR_SIZE;
  }

  // Up to the end of a sector, bytes are in the same sector and cluster.
  lemma PartWithinCluster(g: Geometry, p: nat, w: nat)
    requires g.csize > 0 && 0 < w && p % SECTOR_SIZE + w <= SECTOR_SIZE
    ensures WithinCluster(g, p, w)
    ensures (p + w) % SECTOR_SIZE != 0 ==> (p + w) / SECTOR_SIZE == p / SECTOR_SIZE
  {
    forall i: nat | p <= i < p + w ensures i / SECTOR_SIZE == p / SECTOR_SIZE {
    }
  }

  lemma PartContent(g: Geometry, v: seq<Sector>, ch: seq<nat>, size: nat, p: nat, x: seq<byte>, b: Sector)
    requires g.Ok() && |v| == g.total && ClusterList(g, ch) && Holds(g, ch, size) && p <= size
    requires p / SECTOR_SIZE < g.csize * |ch| && p % SECTOR_SIZE + |x| <= SECTOR_SIZE && 0 < |x|
    requires 0 <= SectorOf(g, ch, p / SECTOR_SIZE) < |v|
    requires b == v[SectorOf(g, ch, p / SECTOR_SIZE)] || (p % SECTOR_SIZE == 0 && size <= p)
    ensures Holds(g, ch, p + |x|) && Holds(g, ch, Larger(p + |x|, size))
    ensures Content(g, v[SectorOf(g, ch, p / SECTOR_SIZE) := Splice(b, p % SECTOR_SIZE, x)], ch, Larger(p + |x|, size))
            == Overwrite(Content(g, v, ch, size), p, x)
  {
    hide Content, Wrote, SectorOf, ClusterList, Geometry.Ok, Splice;
    PartWritten(g, v, ch, size, p, x, b);
    WroteContent(g, v, v[SectorOf(g, ch, p / SECTOR_SIZE) := Splice(b, p % SECTOR_SIZE, x)], ch, size, p, x);
  }

  // memcpy of part of the caller's buffer into the sector buffer.
  method CopyIntoBuffer(fp: FIL, x: seq<byte>)
    requires BufferAtCursor(fp) && |x| > 0 && fp.fptr % SECTOR_SIZE + |x| <= SECTOR_SIZE
    modifies fp`dirty, fp.buf
    ensures Ready(fp) && fp.sect != 0 && fp.fs.View() == old(fp.fs.View())
    ensures fp.sect < |fp.fs.View()|
    ensures fp.View() == old(fp.View())[fp.sect := Splice(old(fp.buf[..]), fp.fptr % SECTOR_SIZE, x)]
  {
    hide FatTable.Links, FatTable.Bits, FatBytes, BitmapBytes, Mirrored, FatAgrees, BitsAgree, SectorOf, Denotes;
    hide FATFS.TableOk, FATFS.ListsOk, ReadyAt, Splice;
    ghost var b := fp.buf[..];
    CursorSectorValid(fp);
    var off := fp.fptr % SECTOR_SIZE;
    forall i | 0 <= i < |x| { fp.buf[off + i] := x[i]; }
    fp.dirty := true;
    assert fp.buf[..] == Splice(b, off, x);
  }

  lemma CursorSectorValid(fp: FIL)
    requires BufferAtCursor(fp)
    ensures fp.sect == SectorOf(fp.fs.g, fp.List(), fp.fptr / SECTOR_SIZE) < fp.fs.g.total
    ensures fp.fptr / SECTOR_SIZE < fp.fs.g.csize * |fp.List()| && fp.fptr <= fp.obj.objsize && Holds(fp.fs.g, fp.List(), fp.obj.objsize)
  {
    SectorInCluster(fp.fs.g, fp.List(), fp.fptr / SECTOR_SIZE);
  }

  // f_write: copy bytes into the buffer, up to the end of the sector.
  method WritePart(fp: FIL, data: seq<byte>) returns (wcnt: nat)
    requires BufferAtCursor(fp) && |data| > 0
    modifies fp`fptr, fp`dirty, fp.obj`objsize, fp.buf
    ensures fp.Ok() && 0 < wcnt <= |data| && fp.fptr == old(fp.fptr) + wcnt && fp.fs.View() == old(fp.fs.View())
    ensures old(fp.Base() && fp.Tracked() && Holds(fp.fs.g, fp.List(), fp.obj.objsize))
    ensures fp.Data() == Overwrite(old(fp.Data()), old(fp.fptr), data[..wcnt])
  {
    hide FatTable.Links, FatTable.Bits, FatBytes, BitmapBytes, Mirrored, FatAgrees, BitsAgree, SectorOf, Denotes, Overlaid;
    hide FATFS.TableOk, FATFS.ListsOk, Content, Placed, Sized, ClusterIndex, WithinCluster, FIL.Ok, Splice, Overwrite, Holds, ReadyAt, Ready, Buffered;
    CursorSectorValid(fp);
    ghost var l, size, b := fp.View(), fp.obj.objsize, fp.buf[..];
    wcnt := SECTOR_SIZE - fp.fptr % SECTOR_SIZE;
    if wcnt > |data| {
      wcnt := |data|;
    }
    BufferCurrent(fp);
    PartContent(fp.fs.g, l, fp.List(), size, fp.fptr, data[..wcnt], b);
    PartWithinCluster(fp.fs.g, fp.fptr, wcnt);
    CopyIntoBuffer(fp, data[..wcnt]);
    AdvanceBy(fp, wcnt);
  }

  lemma BufferCurrent(fp: FIL)
    requires BufferAtCursor(fp)
    ensures fp.sect < |fp.View()| == fp.fs.g.total
    ensures fp.View()[fp.sect] == fp.buf[..] || (fp.fptr % SECTOR_SIZE == 0 && fp.obj.objsize <= fp.fptr)
  {
    CursorSectorValid(fp);
  }

  lemma InsideBuffer(fp: FIL)
    requires fp.Ok() && fp.fptr % SECTOR_SIZE != 0
    ensures BufferAtCursor(fp)
  {
    InsideIsReady(fp);
    SectorInCluster(fp.fs.g, fp.List(), fp.fptr / SECTOR_SIZE);
  }

  // f_write on a sector boundary, once the sector is known.
  method WriteFromSector(fp: FIL, data: seq<byte>, sect: nat) returns (res: FRESULT, wcnt: nat)
    requires Ready(fp) && !fp.dirty && fp.fptr % SECTOR_SIZE == 0 && |data| > 0
    requires fp.fptr / SECTOR_SIZE < fp.fs.g.csize * |fp.List()| && sect == SectorOf(fp.fs.g, fp.List(), fp.fptr / SECTOR_SIZE)
    modifies fp.fs`disk, fp.fs`faulted, fp`fptr, fp`sect, fp`sq, fp`dirty, fp.obj`objsize, fp.buf
    ensures fp.fs.WindowOk() && SameElsewhere(fp.fs.g, fp.List(), old(fp.fs.View()), fp.fs.View())
    ensures res == OK ==> fp.Ok() && 0 < wcnt <= |data| && fp.fptr == old(fp.fptr) + wcnt
    ensures res == OK ==> fp.Data() == Overwrite(old(fp.Data()), old(fp.fptr), data[..wcnt])
    ensures res != OK ==> res == DISK_ERR && fp.fs.faulted
    ensures old(fp.fs.faulted) ==> fp.fs.faulted
  {
    hide FatTable.Links, FatTable.Bits, FatBytes, BitmapBytes, Mirrored, FatAgrees, BitsAgree, SectorOf, Denotes, Overlaid;
    hide FATFS.TableOk, FATFS.ListsOk, Content, Placed, Sized, ClusterIndex, FIL.Ok, Buffered, SameElsewhere, Overwrite, Ready;
    ReadyParts(fp);
    wcnt := 0;
    if |data| / SECTOR_SIZE > 0 {
      res, wcnt := WriteDirect(fp, data, sect);
    } else {
      SameElsewhereRefl(fp.fs.g, fp.List(), fp.fs.View());
      res := FillBuffer(fp, sect);
      if res == OK {
        wcnt := WritePart(fp, data);
      }
    }
  }

  lemma OverwriteNothing(s: seq<byte>, p: nat, x: seq<byte>)
    requires p <= |s|
    ensures Overwrite(s, p, x[..0]) == s
  {
  }

  // One round of f_write; full when no cluster could be allocated.
  method WriteRound(fp: FIL, data: seq<byte>) returns (res: FRESULT, full: bool, wcnt: nat)
    requires fp.Ok() && Mapped(fp) && |data| > 0
    modifies fp`fptr, fp`clust, fp`sect, fp`sq, fp`dirty, fp.fs, fp.fs.win, fp.obj, fp.buf
    ensures fp.fs.WindowOk() && fp.fs.sys == old(fp.fs.sys) && SameElsewhere(fp.fs.g, fp.List(), old(fp.fs.View()), fp.fs.View())
    ensures fp.fs.chains == old(fp.fs.chains) || ListGrew(old(fp.fs.chains), fp.fs.chains, fp.obj.sclust)
    ensures old(fp.List()) <= fp.List() && (old(fp.obj.sclust) != 0 ==> fp.obj.sclust == old(fp.obj.sclust))
    ensures res == OK ==> fp.Ok() && wcnt <= |data| && fp.fptr == old(fp.fptr) + wcnt && (full <==> wcnt == 0)
    ensures res == OK ==> fp.Data() == Overwrite(old(fp.Data()), old(fp.fptr), data[..wcnt])
    ensures res == OK && full ==> Exhausted(fp)
    ensures res == OK ==> Mapped(fp)
    ensures fp.cltbl != null && old(fp.obj.sclust) != 0 ==> fp.fs.chains == old(fp.fs.chains)
    ensures res != OK ==> res == DISK_ERR && fp.fs.faulted
    ensures old(fp.fs.faulted) ==> fp.fs.faulted
    ensures Noted(old(fp.fs.freeClst), old(fp.fs.fsiFlag), fp.fs.freeClst, fp.fs.fsiFlag)
  {
    hide FatTable.Links, FatTable.Bits, FatBytes, BitmapBytes, Mirrored, FatAgrees, BitsAgree, SectorOf, Denotes, Overlaid;
    hide FATFS.TableOk, FATFS.ListsOk, Content, Placed, Sized, Holds, ClusterIndex, FIL.Ok, Ready, Buffered, SameElsewhere, ListGrew, FreeClusters, Owned, Overwrite, MapOf, Exhausted, Mapped;
    OkParts(fp);
    ghost var v := fp.fs.View();
    full, wcnt := false, 0;
    if fp.fptr % SECTOR_SIZE == 0 {
      var sect;
      res, full, sect := PrepareSector(fp);
      if res != OK {
        return;
      }
      if full {
        OkParts(fp);
        OverwriteNothing(fp.Data(), fp.fptr, data);
        return;
      }
      ReadyParts(fp);
      ghost var u := fp.fs.View();
      res, wcnt := WriteFromSector(fp, data, sect);
      SameElsewhereTwice(fp.fs.g, fp.List(), v, u, fp.fs.View());
    } else {
      InsideBuffer(fp);
      SameElsewhereRefl(fp.fs.g, fp.List(), v);
      res := OK;
      wcnt := WritePart(fp, data);
    }
  }

  // On FAT12/16/32 a file cannot reach 4 GiB: the number of bytes that may still be written
  // at the cursor, in 32-bit arithmetic.
  function Clipped(g: Geometry, fptr: nat, btw: nat): nat {
    if g.fsType != EXFAT && (fptr + btw) % 0x1_0000_0000 < fptr % 0x1_0000_0000
    then 0xFFFF_FFFF - fptr % 0x1_0000_0000 else btw
  }

  // What does not reach 4 GiB is not clipped, and what does is clipped just before it.
  lemma ClippedIs(g: Geometry, fptr: nat, btw: nat)
    requires btw < 0x1_0000_0000
    ensures Clipped(g, fptr, btw) <= btw
    ensures g.fsType == EXFAT || fptr + btw < 0x1_0000_0000 ==> Clipped(g, fptr, btw) == btw
    ensures g.fsType != EXFAT && fptr < 0x1_0000_0000 <= fptr + btw ==> fptr + Clipped(g, fptr, btw) == 0xFFFF_FFFF
  {
  }

  // The loop of f_write.
  method WriteLoop(fp: FIL, buff: seq<byte>) returns (res: FRESULT, bw: nat)
    requires fp.Ok() && Mapped(fp)
    modifies fp`fptr, fp`clust, fp`sect, fp`sq, fp`dirty, fp.fs, fp.fs.win, fp.obj, fp.buf
    ensures fp.fs.WindowOk() && fp.fs.sys == old(fp.fs.sys) && SameElsewhere(fp.fs.g, fp.List(), old(fp.fs.View()), fp.fs.View())
    ensures fp.fs.chains == old(fp.fs.chains) || ListGrew(old(fp.fs.chains), fp.fs.chains, fp.obj.sclust)
    ensures res == OK ==> fp.Ok() && bw <= |buff| && fp.fptr == old(fp.fptr) + bw
    ensures res == OK ==> fp.Data() == Overwrite(old(fp.Data()), old(fp.fptr), buff[..bw])
    ensures res == OK && bw < |buff| ==> Exhausted(fp)
    ensures res == OK ==> Mapped(fp)
    ensures fp.cltbl != null && old(fp.obj.sclust) != 0 ==> fp.fs.chains == old(fp.fs.chains)
    ensures res != OK ==> res == DISK_ERR && fp.fs.faulted
    ensures Noted(old(fp.fs.freeClst), old(fp.fs.fsiFlag), fp.fs.freeClst, fp.fs.fsiFlag)
    ensures old(fp.fs.faulted) ==> fp.fs.faulted
  {
    hide FatTable.Links, FatTable.Bits, FatBytes, BitmapBytes, Mirrored, FatAgrees, BitsAgree, SectorOf, Denotes, Overlaid;
    hide FATFS.TableOk, FATFS.ListsOk, Content, Placed, Sized, Holds, ClusterIndex, FIL.Ok, Buffered, SameElsewhere, ListGrew, FreeClusters, Owned, Overwrite, Mapped, Exhausted, Noted;
    bw := 0;
    res := OK;
    ghost var d, p, v, chains := fp.Data(), fp.fptr, fp.fs.View(), fp.fs.chains;
    SameElsewhereRefl(fp.fs.g, fp.List(), v);
    OverwriteNothing(d, p, buff);
    NotedNothing(fp.fs.freeClst, fp.fs.fsiFlag);
    var full := false;
    while bw < |buff| && !full
      invariant res == OK && fp.Ok() && bw <= |buff| && fp.fs.sys == old(fp.fs.sys)
      invariant SameElsewhere(fp.fs.g, fp.List(), v, fp.fs.View())
      invariant fp.fs.chains == chains || ListGrew(chains, fp.fs.chains, fp.obj.sclust)
      invariant fp.fptr == p + bw && fp.Data() == Overwrite(d, p, buff[..bw])
      invariant (full ==> Exhausted(fp)) && Mapped(fp)
      invariant fp.cltbl != null && old(fp.obj.sclust) != 0 ==> fp.fs.chains == chains && fp.obj.sclust != 0
      invariant Noted(old(fp.fs.freeClst), old(fp.fs.fsiFlag), fp.fs.freeClst, fp.fs.fsiFlag)
      invariant old(fp.fs.faulted) ==> fp.fs.faulted
      decreases |buff| - bw, !full
    {
      ghost var ch, u, grown, key := fp.List(), fp.fs.View(), fp.fs.chains, fp.obj.sclust;
      ghost var free, flag := fp.fs.freeClst, fp.fs.fsiFlag;
      var wcnt;
      res, full, wcnt := WriteRound(fp, buff[bw..]);
      NotedTwice(old(fp.fs.freeClst), old(fp.fs.fsiFlag), free, flag, fp.fs.freeClst, fp.fs.fsiFlag);
      RoundFrame(fp, chains, grown, key, v, u, ch);
      if res != OK {
        return;
      }
      WroteMore(d, p, buff, bw, wcnt);
      bw := bw + wcnt;
    }
  }

  lemma WroteMore(d: seq<byte>, p: nat, buff: seq<byte>, bw: nat, wcnt: nat)
    requires p <= |d| && bw + wcnt <= |buff|
    ensures Overwrite(Overwrite(d, p, buff[..bw]), p + bw, buff[bw..][..wcnt]) == Overwrite(d, p, buff[..bw + wcnt])
  {
    OverwriteTwice(d, p, buff[..bw], buff[bw..][..wcnt]);
    assert buff[..bw] + buff[bw..][..wcnt] == buff[..bw + wcnt];
  }

  /** f_write: the bytes reported as written replace those at the cursor, the cursor moves
      behind them, and nothing outside the file's clusters and the tables changes. On FAT12/16/32
      the cursor does not get beyond 4 GiB - 1. Otherwise fewer bytes than asked for are written only if the file's clusters are full and no cluster is
      free, or the file is in fast seek mode, in which a file that has clusters gets no more. */
  method Write(fp: FIL, buff: seq<byte>) returns (res: FRESULT, bw: nat)
    requires fp.err == OK ==> fp.Ok() && Mapped(fp)
    requires fp.fs.WindowOk() && |buff| < 0x1_0000_0000
    modifies fp`fptr, fp`clust, fp`sect, fp`sq, fp`dirty, fp`modified, fp`err, fp.fs, fp.fs.win, fp.obj, fp.buf
    ensures fp.fs.WindowOk() && fp.fs.sys == old(fp.fs.sys) && SameElsewhere(fp.fs.g, fp.List(), old(fp.fs.View()), fp.fs.View())
    ensures fp.fs.chains == old(fp.fs.chains) || ListGrew(old(fp.fs.chains), fp.fs.chains, fp.obj.sclust)
    ensures old(fp.err) != OK ==> res == old(fp.err) && bw == 0
    ensures old(fp.err) == OK && !fp.canWrite ==> res == DENIED && bw == 0 && fp.Ok() && fp.Data() == old(fp.Data())
    ensures res == OK ==> fp.Ok() && fp.modified && bw <= Clipped(fp.fs.g, old(fp.fptr), |buff|) <= |buff|
    ensures res == OK ==> fp.fptr == old(fp.fptr) + bw && fp.Data() == Overwrite(old(fp.Data()), old(fp.fptr), buff[..bw])
    ensures res == OK && bw < Clipped(fp.fs.g, old(fp.fptr), |buff|) ==> Exhausted(fp)
    ensures res == OK && (fp.fs.g.fsType == EXFAT || old(fp.fptr) + |buff| < 0x1_0000_0000) ==> bw == |buff| || Exhausted(fp)
    ensures res == OK && fp.fs.g.fsType != EXFAT && old(fp.fptr) < 0x1_0000_0000 <= old(fp.fptr) + |buff| ==>
              fp.fptr == 0xFFFF_FFFF || (fp.fptr < 0xFFFF_FFFF && Exhausted(fp))
    ensures res == OK ==> Mapped(fp)
    ensures fp.cltbl != null && old(fp.obj.sclust) != 0 ==> fp.fs.chains == old(fp.fs.chains)
    ensures old(fp.err) == OK && fp.canWrite && res != OK ==> res == DISK_ERR == fp.err && fp.fs.faulted
    ensures Noted(old(fp.fs.freeClst), old(fp.fs.fsiFlag), fp.fs.freeClst, fp.fs.fsiFlag)
    ensures res == OK && old(InfoOk(fp.fs)) ==> InfoOk(fp.fs)
    ensures old(fp.fs.faulted) ==> fp.fs.faulted
  {
    hide FatTable.Links, FatTable.Bits, FatBytes, BitmapBytes, Mirrored, FatAgrees, BitsAgree, SectorOf, Denotes, Overlaid;
    hide FATFS.TableOk, FATFS.ListsOk, Content, Placed, Sized, Holds, ClusterIndex, FIL.Ok, Buffered, SameElsewhere, ListGrew, FreeClusters, Owned, Overwrite, Mapped, Exhausted, Clipped, InfoOk;
    bw := 0;
    SameElsewhereRefl(fp.fs.g, fp.List(), fp.fs.View());
    if fp.err != OK {
      return fp.err, bw;
    }
    if !fp.canWrite {
      return DENIED, bw;
    }
    ClippedIs(fp.fs.g, fp.fptr, |buff|);
    var btw := Clipped(fp.fs.g, fp.fptr, |buff|);
    res, bw := WriteLoop(fp, buff[..btw]);
    if res != OK {
      fp.err := res;
      return;
    }
    assert buff[..btw][..bw] == buff[..bw];
    OkClusters(fp);
    InfoElsewhere(fp);
    fp.modified := true;
  }

  lemma OkClusters(fp: FIL)
    requires fp.Ok()
    ensures forall c :: c in fp.List() ==> fp.fs.g.IsCluster(c)
  {
    hide FATFS.TableOk, Sized, Placed, Buffered;
    if fp.Empty() {
      NoListZero(fp.fs.g, fp.fs.chains);
    }
  }

  // What one round leaves alone, after what the rounds before it left alone.
  lemma RoundFrame(fp: FIL, a: ClusterLists, b: ClusterLists, key: nat, v: seq<Sector>, u: seq<Sector>, ch: seq<nat>)
    requires ch <= fp.List() && SameElsewhere(fp.fs.g, ch, v, u) && SameElsewhere(fp.fs.g, fp.List(), u, fp.fs.View())
    requires a == b || ListGrew(a, b, key)
    requires key == 0 || key == fp.obj.sclust
    requires b == fp.fs.chains || ListGrew(b, fp.fs.chains, fp.obj.sclust)
    ensures SameElsewhere(fp.fs.g, fp.List(), v, fp.fs.View())
    ensures a == fp.fs.chains || ListGrew(a, fp.fs.chains, fp.obj.sclust)
  {
    SameElsewhereMore(fp.fs.g, ch, fp.List(), v, u);
    SameElsewhereTwice(fp.fs.g, fp.List(), v, u, fp.fs.View());
    ListGrewTwice(a, b, fp.fs.chains, fp.obj.sclust);
  }

  // f_read, cluster change: the cluster behind the current one.
  method ReadNext(fp: FIL) returns (clst: dword)
    requires fp.Ok() && !fp.Empty() && 0 < fp.fptr < fp.obj.objsize
    requires fp.fptr % SECTOR_SIZE == 0 && fp.fptr / SECTOR_SIZE % fp.fs.g.csize == 0
    modifies fp.fs`disk, fp.fs`faulted, fp.fs`wflag, fp.fs`winsect, fp.fs.win
    ensures fp.fs.WindowOk() && TablesOnly(fp.fs.g, fp.List(), old(fp.fs.View()), fp.fs.View())
    ensures clst == IO_ERROR ==> fp.fs.faulted
    ensures clst != IO_ERROR ==> clst >= 2 && ReadyWith(fp, clst)
    ensures old(fp.fs.faulted) ==> fp.fs.faulted
  {
    hide FatTable.Links, FatTable.Bits, FatBytes, BitmapBytes, Mirrored, Overlaid, FatAgrees, BitsAgree, SectorOf, ClusterIndex, Denotes, FreeClusters, Owned;
    hide FATFS.TableOk, FATFS.ListsOk, PlainData, Buffered, Holds;
    ghost var g, at, ch := fp.fs.g, ClusterIndex(fp.fs.g, fp.fptr - 1), fp.List();
    ghost var v := fp.fs.View();
    FollowsAnswers(fp);
    OkParts(fp);
    IndexBefore(g, fp.fptr);
    NextExists(g, ch, fp.obj.objsize, fp.fptr);
    NextReady(g, fp.obj.Status(), ch, fp.obj.objsize, fp.fptr, fp.clust, fp.sect, fp.sq, at);
    hide Placed, Sized, ReadyAt, BufferPlaced;
    clst := NextOrEnd(fp.fs, fp.obj, fp.clust, fp.obj.sclust, at);
    if clst != IO_ERROR {
      SameViewOutside(g, v, fp.fs.View());
      BufferKept(g, fp.fs.sys, v, fp.fs.View(), ch, fp.sect, fp.sq, fp.dirty, fp.buf[..]);
    }
  }

  // f_read, cluster change: from the start of the list, or to the cluster behind the current one.
  method ReadCluster(fp: FIL) returns (res: FRESULT)
    requires fp.Ok() && Mapped(fp) && fp.fptr < fp.obj.objsize
    requires fp.fptr % SECTOR_SIZE == 0 && fp.fptr / SECTOR_SIZE % fp.fs.g.csize == 0
    modifies fp.fs`disk, fp.fs`faulted, fp.fs`wflag, fp.fs`winsect, fp.fs.win, fp`clust
    ensures fp.fs.WindowOk() && TablesOnly(fp.fs.g, fp.List(), old(fp.fs.View()), fp.fs.View())
    ensures res == OK ==> Ready(fp)
    ensures res != OK ==> res == DISK_ERR && fp.fs.faulted
    ensures old(fp.fs.faulted) ==> fp.fs.faulted
  {
    hide FatTable.Links, FatTable.Bits, FatBytes, BitmapBytes, Mirrored, Overlaid, FatAgrees, BitsAgree, SectorOf, ClusterIndex, Denotes, FreeClusters, Owned;
    hide FATFS.TableOk, FATFS.ListsOk, PlainData, Buffered, Holds, Sized, Placed, ReadyAt, Mapped;
    res := OK;
    var clst: dword;
    if fp.fptr == 0 {
      clst := fp.obj.sclust;
      FirstClusterReady(fp);
    } else if fp.cltbl != null {
      OkParts(fp);
      NextExists(fp.fs.g, fp.List(), fp.obj.objsize, fp.fptr);
      clst := MappedCluster(fp);
      TablesOnlyRefl(fp.fs.g, fp.List(), fp.fs.View());
    } else {
      clst := ReadNext(fp);
    }
    if clst < 2 {
      return INT_ERR;
    }
    if clst == IO_ERROR {
      return DISK_ERR;
    }
    fp.clust := clst;
  }

  // Behind a cluster boundary inside the file there is another cluster.
  lemma NextExists(g: Geometry, ch: seq<nat>, size: nat, p: nat)
    requires g.csize > 0 && Holds(g, ch, size) && p < size
    ensures ClusterIndex(g, p) < |ch|
  {
    HeldSector(g, ch, size, p);
    BlockIndex(p / SECTOR_SIZE, g.csize, |ch|);
  }

  // f_read, cluster change, with what it means for the contents.
  method ReadClusterKeeping(fp: FIL, ghost d: seq<byte>) returns (res: FRESULT)
    requires fp.Ok() && Mapped(fp) && fp.fptr < fp.obj.objsize && fp.Data() == d
    requires fp.fptr % SECTOR_SIZE == 0 && fp.fptr / SECTOR_SIZE % fp.fs.g.csize == 0
    modifies fp.fs`disk, fp.fs`faulted, fp.fs`wflag, fp.fs`winsect, fp.fs.win, fp`clust
    ensures fp.fs.WindowOk() && SameElsewhere(fp.fs.g, fp.List(), old(fp.fs.View()), fp.fs.View())
    ensures res == OK ==> Ready(fp) && fp.Data() == d
    ensures res != OK ==> res == DISK_ERR && fp.fs.faulted
    ensures old(fp.fs.faulted) ==> fp.fs.faulted
  {
    hide FatTable.Links, FatTable.Bits, FatBytes, BitmapBytes, Mirrored, Overlaid, FatAgrees, BitsAgree, SectorOf, Denotes;
    hide FATFS.TableOk, FATFS.ListsOk, FATFS.WindowOk, Content, Placed, Sized, Buffered, FIL.Ok, Ready, SameElsewhere, Mapped;
    OkParts(fp);
    ghost var v := fp.fs.View();
    res := ReadCluster(fp);
    OutsideIsElsewhere(fp.fs.g, fp.List(), v, fp.fs.View());
    if res == OK {
      ReadyParts(fp);
      DataKept(fp.fs.g, fp.fs.sys, v, fp.fs.View(), fp.List(), fp.List(), fp.obj.objsize, fp.dirty, fp.sect, fp.buf[..]);
    }
  }

  method EnterForReading(fp: FIL, ghost d: seq<byte>) returns (res: FRESULT)
    requires fp.Ok() && Mapped(fp) && fp.fptr < fp.obj.objsize && fp.fptr % SECTOR_SIZE == 0 && fp.Data() == d
    modifies fp.fs`disk, fp.fs`faulted, fp.fs`wflag, fp.fs`winsect, fp.fs.win, fp`clust
    ensures fp.fs.WindowOk() && SameElsewhere(fp.fs.g, fp.List(), old(fp.fs.View()), fp.fs.View())
    ensures res == OK ==> Ready(fp) && fp.Data() == d
    ensures res != OK ==> res == DISK_ERR && fp.fs.faulted
    ensures old(fp.fs.faulted) ==> fp.fs.faulted
  {
    hide FatTable.Links, FatTable.Bits, FatBytes, BitmapBytes, Mirrored, Overlaid, FatAgrees, BitsAgree, SectorOf, Denotes;
    hide FATFS.TableOk, FATFS.ListsOk, FATFS.WindowOk, FATFS.Valid, Content, Placed, Sized, Buffered, FIL.Ok, Ready, SameElsewhere, Mapped;
    hide FIL.Base, FIL.Tracked, FIL.Empty, ClusterIndex, Holds, Owned, FreeClusters, PlainData, ClusterList, BitmapIsMeta;
    OkParts(fp);
    if fp.fptr / SECTOR_SIZE % fp.fs.g.csize == 0 {
      res := ReadClusterKeeping(fp, d);
    } else {
      InsideIsReady(fp);
      ReadyParts(fp);
      SameElsewhereRefl(fp.fs.g, fp.List(), fp.fs.View());
      res := OK;
    }
  }

  // clst2sect of the current cluster, plus the sector offset of the cursor in it.
  method SectorAtCursor(fp: FIL) returns (res: FRESULT, sect: nat)
    requires Ready(fp)
    ensures res == OK && fp.fptr / SECTOR_SIZE < fp.fs.g.csize * |fp.List()|
    ensures sect == SectorOf(fp.fs.g, fp.List(), fp.fptr / SECTOR_SIZE)
  {
    ReadyParts(fp);
    ReadyIndex(fp);
    CursorSector(fp.fs.g, fp.List(), fp.fptr, fp.clust);
    sect := fp.fs.g.ToSector(fp.clust);
    if sect == 0 {
      return INT_ERR, sect;
    }
    res, sect := OK, sect + fp.fptr / SECTOR_SIZE % fp.fs.g.csize;
  }

  lemma ReadyIndex(fp: FIL)
    requires Ready(fp)
    ensures fp.fs.g.csize > 0 && ClusterIndex(fp.fs.g, fp.fptr) < |fp.List()| && fp.clust == fp.List()[ClusterIndex(fp.fs.g, fp.fptr)]
  {
  }

  // disk_read of whole sectors; a dirty buffered sector among them comes from the buffer.
  method FetchSectors(fp: FIL, cc: nat, sect: nat) returns (res: FRESULT, d: seq<Sector>)
    requires Ready(fp) && RunOf(fp.fs.g, fp.List(), fp.fptr / SECTOR_SIZE, cc, sect)
    modifies fp.fs`faulted
    ensures Ready(fp) && fp.fs.View() == old(fp.fs.View())
    ensures res == OK ==> |d| == cc && sect + cc <= |fp.View()| && forall k :: 0 <= k < cc ==> d[k] == fp.View()[sect + k]
    ensures res != OK ==> res == DISK_ERR && fp.fs.faulted
    ensures old(fp.fs.faulted) ==> fp.fs.faulted
  {
    hide FatTable.Links, FatTable.Bits, FatBytes, BitmapBytes, Mirrored, FatAgrees, BitsAgree, SectorOf, Denotes;
    hide FATFS.TableOk, FATFS.ListsOk, ReadyAt, RunOf;
    ReadyParts(fp);
    RunIsData(fp.fs.g, fp.fs.sys, fp.List(), fp.fptr / SECTOR_SIZE, cc, sect);
    var ok;
    ok, d := ReadSectors(fp.fs, sect, cc, fp.List(), fp.fptr / SECTOR_SIZE);
    if !ok {
      return DISK_ERR, d;
    }
    if fp.dirty && sect <= fp.sect < sect + cc {
      d := d[fp.sect - sect := fp.buf[..]];
    }
    res := OK;
  }

  // f_read: transfer whole sectors into the caller's buffer, up to the end of the cluster.
  method ReadDirect(fp: FIL, n: nat, sect: nat) returns (res: FRESULT, x: seq<byte>)
    requires Ready(fp) && fp.fptr % SECTOR_SIZE == 0 && SECTOR_SIZE <= n && fp.fptr + n <= fp.obj.objsize
    requires fp.fptr / SECTOR_SIZE < fp.fs.g.csize * |fp.List()| && sect == SectorOf(fp.fs.g, fp.List(), fp.fptr / SECTOR_SIZE)
    modifies fp.fs`faulted, fp`fptr, fp.obj`objsize
    ensures fp.fs.WindowOk() && fp.fs.View() == old(fp.fs.View())
    ensures res == OK ==> fp.Ok() && 0 < |x| <= n && fp.fptr == old(fp.fptr) + |x| && fp.obj.objsize == old(fp.obj.objsize)
    ensures res == OK ==> fp.Data() == old(fp.Data()) && x == fp.Data()[old(fp.fptr)..fp.fptr]
    ensures res != OK ==> res == DISK_ERR && fp.fs.faulted
    ensures old(fp.fs.faulted) ==> fp.fs.faulted
  {
    hide FatTable.Links, FatTable.Bits, FatBytes, BitmapBytes, Mirrored, FatAgrees, BitsAgree, SectorOf, Denotes, Buffered, Overlaid;
    hide FATFS.TableOk, FATFS.ListsOk, Content, Placed, Sized, Holds, ClusterIndex, FIL.Ok, Ready, DirectSectors, WithinCluster, Joined;
    ReadyParts(fp);
    x := [];
    var cc := DirectSectors(fp.fs.g, fp.fptr, n);
    var d;
    res, d := FetchSectors(fp, cc, sect);
    if res == OK {
      DirectRead(fp.fs.g, fp.View(), fp.List(), fp.obj.objsize, fp.fptr, d, sect);
      x := Joined(d);
      AdvanceBy(fp, |x|);
    }
  }

  lemma DirectRead(g: Geometry, v: seq<Sector>, ch: seq<nat>, size: nat, p: nat, d: seq<Sector>, sect: nat)
    requires g.Ok() && |v| == g.total && ClusterList(g, ch) && Holds(g, ch, size)
    requires p % SECTOR_SIZE == 0 && p + |d| * SECTOR_SIZE <= size && RunOf(g, ch, p / SECTOR_SIZE, |d|, sect)
    requires sect + |d| <= |v| && forall k :: 0 <= k < |d| ==> d[k] == v[sect + k]
    ensures Joined(d) == Content(g, v, ch, size)[p..p + |d| * SECTOR_SIZE]
    ensures WithinCluster(g, p, |d| * SECTOR_SIZE) && Holds(g, ch, p + |d| * SECTOR_SIZE) && (p + |d| * SECTOR_SIZE) % SECTOR_SIZE == 0
  {
    hide Content, SectorOf, ClusterList, Geometry.Ok, Holds, WithinCluster, Joined;
    RunRead(g, v, ch, size, p, d);
    RunWithinCluster(g, p, |d|);
    RunHeld(g, ch, p, |d|);
    AlignedEnd(p, |d|);
  }

  // f_read: load the sector of the cursor into the buffer unless it is there already.
  method ReadFill(fp: FIL, sect: nat) returns (res: FRESULT)
    requires Ready(fp) && fp.fptr % SECTOR_SIZE == 0 && fp.fptr < fp.obj.objsize
    requires fp.fptr / SECTOR_SIZE < fp.fs.g.csize * |fp.List()| && sect == SectorOf(fp.fs.g, fp.List(), fp.fptr / SECTOR_SIZE)
    modifies fp.fs`disk, fp.fs`faulted, fp`dirty, fp`sect, fp`sq, fp.buf
    ensures fp.fs.WindowOk() && SameElsewhere(fp.fs.g, fp.List(), old(fp.fs.View()), fp.fs.View())
    ensures res == OK ==> BufferAtCursor(fp) && fp.View() == old(fp.View())
    ensures res != OK ==> res == DISK_ERR && fp.fs.faulted
    ensures old(fp.fs.faulted) ==> fp.fs.faulted
  {
    hide FatTable.Links, FatTable.Bits, FatBytes, BitmapBytes, Mirrored, FatAgrees, BitsAgree, SectorOf, Denotes, Overlaid;
    hide FATFS.TableOk, FATFS.ListsOk, Sized, Holds, ClusterIndex, SameElsewhere;
    res := OK;
    ReadyParts(fp);
    SectorInCluster(fp.fs.g, fp.List(), fp.fptr / SECTOR_SIZE);
    if fp.sect != sect {
      res := FlushBuffer(fp);
      if res == OK {
        res := FillBuffer(fp, sect);
      }
    } else {
      SectorsDistinct(fp.fs.g, fp.List(), fp.sq, fp.fptr / SECTOR_SIZE);
      SameElsewhereRefl(fp.fs.g, fp.List(), fp.fs.View());
    }
  }

  // f_read: take bytes from the buffer, up to the end of the sector.
  method ReadPart(fp: FIL, n: nat) returns (x: seq<byte>)
    requires BufferAtCursor(fp) && 0 < n && fp.fptr + n <= fp.obj.objsize
    modifies fp`fptr, fp.obj`objsize
    ensures fp.Ok() && 0 < |x| <= n && fp.fptr == old(fp.fptr) + |x| && fp.obj.objsize == old(fp.obj.objsize)
    ensures old(fp.Base() && fp.Tracked() && Holds(fp.fs.g, fp.List(), fp.obj.objsize))
    ensures fp.Data() == old(fp.Data()) && x == fp.Data()[old(fp.fptr)..fp.fptr]
  {
    hide FatTable.Links, FatTable.Bits, FatBytes, BitmapBytes, Mirrored, FatAgrees, BitsAgree, SectorOf, Denotes, Overlaid;
    hide FATFS.TableOk, FATFS.ListsOk, Content, Placed, Sized, ClusterIndex, WithinCluster, FIL.Ok, Holds, ReadyAt, Buffered;
    CursorSectorValid(fp);
    BufferCurrent(fp);
    BufferReady(fp);
    var rcnt := SECTOR_SIZE - fp.fptr % SECTOR_SIZE;
    if rcnt > n {
      rcnt := n;
    }
    PartRead(fp.fs.g, fp.View(), fp.List(), fp.obj.objsize, fp.fptr, rcnt);
    HoldsLess(fp.fs.g, fp.List(), fp.obj.objsize, fp.fptr + rcnt);
    PartWithinCluster(fp.fs.g, fp.fptr, rcnt);
    x := fp.buf[fp.fptr % SECTOR_SIZE..fp.fptr % SECTOR_SIZE + rcnt];
    assert x == fp.buf[..][fp.fptr % SECTOR_SIZE..fp.fptr % SECTOR_SIZE + rcnt];
    AdvanceBy(fp, rcnt);
  }

  lemma BufferReady(fp: FIL)
    requires BufferAtCursor(fp) && fp.fptr < fp.obj.objsize
    ensures Ready(fp)
  {
  }

  lemma HoldsLess(g: Geometry, ch: seq<nat>, size: nat, less: nat)
    requires Holds(g, ch, size) && less <= size
    ensures Holds(g, ch, less)
  {
  }

  // One round of f_read.
  method ReadRound(fp: FIL, n: nat) returns (res: FRESULT, x: seq<byte>)
    requires fp.Ok() && Mapped(fp) && 0 < n && fp.fptr + n <= fp.obj.objsize
    modifies fp.fs`disk, fp.fs`faulted, fp.fs`wflag, fp.fs`winsect, fp.fs.win
    modifies fp`fptr, fp`clust, fp`sect, fp`sq, fp`dirty, fp.obj`objsize, fp.buf
    ensures fp.fs.WindowOk() && SameElsewhere(fp.fs.g, fp.List(), old(fp.fs.View()), fp.fs.View())
    ensures Mapped(fp) && fp.List() == old(fp.List())
    ensures res == OK ==> fp.Ok() && 0 < |x| <= n && fp.fptr == old(fp.fptr) + |x| && fp.obj.objsize == old(fp.obj.objsize)
    ensures res == OK ==> fp.Data() == old(fp.Data()) && x == fp.Data()[old(fp.fptr)..fp.fptr]
    ensures res != OK ==> res == DISK_ERR && fp.fs.faulted
    ensures old(fp.fs.faulted) ==> fp.fs.faulted
  {
    hide FatTable.Links, FatTable.Bits, FatBytes, BitmapBytes, Mirrored, FatAgrees, BitsAgree, SectorOf, Denotes, Overlaid;
    hide FATFS.TableOk, FATFS.ListsOk, Content, Placed, Sized, Holds, ClusterIndex, FIL.Ok, Ready, Buffered, SameElsewhere, Owned, MapOf;
    res, x := OK, [];
    ghost var v := fp.fs.View();
    if fp.fptr % SECTOR_SIZE == 0 {
      res := EnterForReading(fp, fp.Data());
      if res != OK {
        return;
      }
      ghost var u := fp.fs.View();
      ReadyParts(fp);
      res, x := ReadFromSector(fp, n);
      SameElsewhereTwice(fp.fs.g, fp.List(), v, u, fp.fs.View());
    } else {
      InsideBuffer(fp);
      SameElsewhereRefl(fp.fs.g, fp.List(), v);
      x := ReadPart(fp, n);
    }
  }

  // f_read on a sector boundary, once the cluster is known.
  method ReadFromSector(fp: FIL, n: nat) returns (res: FRESULT, x: seq<byte>)
    requires Ready(fp) && fp.fptr % SECTOR_SIZE == 0 && 0 < n && fp.fptr + n <= fp.obj.objsize
    modifies fp.fs`disk, fp.fs`faulted, fp`fptr, fp`sect, fp`sq, fp`dirty, fp.obj`objsize, fp.buf
    ensures fp.fs.WindowOk() && SameElsewhere(fp.fs.g, fp.List(), old(fp.fs.View()), fp.fs.View())
    ensures res == OK ==> fp.Ok() && 0 < |x| <= n && fp.fptr == old(fp.fptr) + |x| && fp.obj.objsize == old(fp.obj.objsize)
    ensures res == OK ==> fp.Data() == old(fp.Data()) && x == fp.Data()[old(fp.fptr)..fp.fptr]
    ensures res != OK ==> res == DISK_ERR && fp.fs.faulted
    ensures old(fp.fs.faulted) ==> fp.fs.faulted
  {
    hide FatTable.Links, FatTable.Bits, FatBytes, BitmapBytes, Mirrored, FatAgrees, BitsAgree, SectorOf, Denotes, Overlaid;
    hide FATFS.TableOk, FATFS.ListsOk, Content, Placed, Sized, ClusterIndex, FIL.Ok, Ready, Buffered, SameElsewhere;
    ReadyParts(fp);
    x := [];
    var sect;
    res, sect := SectorAtCursor(fp);
    SameElsewhereRefl(fp.fs.g, fp.List(), fp.fs.View());
    if n / SECTOR_SIZE > 0 {
      res, x := ReadDirect(fp, n, sect);
    } else {
      res := ReadFill(fp, sect);
      if res == OK {
        x := ReadPart(fp, n);
      }
    }
  }

  // The loop of f_read, for bytes that the file has.
  method ReadLoop(fp: FIL, mem: array<byte>, base: nat, n: nat, ghost d: seq<byte>, ghost p: nat, ghost m: seq<byte>)
    returns (res: FRESULT, br: nat)
    requires fp.Ok() && Mapped(fp) && Outside(fp, mem) && fp.fptr + n <= |d| && base + n <= mem.Length && mem != fp.buf && mem != fp.fs.win
    requires fp.Data() == d && fp.fptr == p && mem[..] == m
    modifies fp.fs`disk, fp.fs`faulted, fp.fs`wflag, fp.fs`winsect, fp.fs.win, mem
    modifies fp`fptr, fp`clust, fp`sect, fp`sq, fp`dirty, fp.obj`objsize, fp.buf
    ensures fp.fs.WindowOk() && SameElsewhere(fp.fs.g, fp.List(), old(fp.fs.View()), fp.fs.View())
    ensures Mapped(fp)
    ensures br <= n && mem[..] == Splice(m, base, d[p..p + br])
    ensures res == OK ==> br == n && fp.Ok() && fp.Data() == d && fp.fptr == p + br
    ensures res != OK ==> res == DISK_ERR && fp.fs.faulted
  {
    hide FatTable.Links, FatTable.Bits, FatBytes, BitmapBytes, Mirrored, FatAgrees, BitsAgree, SectorOf, Denotes, Overlaid;
    hide FATFS.TableOk, FATFS.ListsOk, Content, Placed, Sized, Holds, ClusterIndex, FIL.Ok, Buffered, SameElsewhere, Owned, Splice;
    hide FATFS.WindowOk, FATFS.Valid, FIL.Base, FIL.Tracked, FIL.Empty, PlainData, ClusterList, LinksElsewhere, FreeClusters, Mapped, Geometry.Ok, BitmapIsMeta;
    res, br := OK, 0;
    ghost var v := fp.fs.View();
    SameElsewhereRefl(fp.fs.g, fp.List(), v);
    SpliceNothing(m, base, d[p..p]);
    while br < n
      invariant res == OK && fp.Ok() && fp.Data() == d && fp.fptr == p + br && br <= n
      invariant Mapped(fp) && SameElsewhere(fp.fs.g, fp.List(), v, fp.fs.View())
      invariant mem[..] == Splice(m, base, d[p..p + br])
    {
      ghost var u := fp.fs.View();
      var x;
      res, x := ReadRound(fp, n - br);
      SameElsewhereTwice(fp.fs.g, fp.List(), v, u, fp.fs.View());
      if res != OK {
        return;
      }
      CopyTo(mem, base + br, x);
      SpliceMore(m, base, d, p, br, |x|);
      br := br + |x|;
    }
  }

  lemma SpliceNothing(m: seq<byte>, i: nat, x: seq<byte>)
    requires i <= |m| && |x| == 0
    ensures Splice(m, i, x) == m
  {
  }

  lemma SpliceMore(m: seq<byte>, i: nat, d: seq<byte>, p: nat, br: nat, n: nat)
    requires p + br + n <= |d| && i + br + n <= |m|
    ensures Splice(Splice(m, i, d[p..p + br]), i + br, d[p + br..p + br + n]) == Splice(m, i, d[p..p + br + n])
  {
    SpliceTwice(m, i, d[p..p + br], d[p + br..p + br + n]);
    assert d[p..p + br] + d[p + br..p + br + n] == d[p..p + br + n];
  }

  /** f_read: up to the end of the file, bytes base .. base+br-1 of memory become those at the
      cursor, which moves behind them; no other byte of memory and no byte of the file changes. */
  method Read(fp: FIL, mem: array<byte>, base: nat, btr: nat) returns (res: FRESULT, br: nat)
    requires fp.err == OK ==> fp.Ok() && Mapped(fp)
    requires fp.fs.WindowOk() && base + btr <= mem.Length && mem != fp.buf && mem != fp.fs.win && Outside(fp, mem)
    modifies fp.fs`disk, fp.fs`faulted, fp.fs`wflag, fp.fs`winsect, fp.fs.win, mem
    modifies fp`fptr, fp`clust, fp`sect, fp`sq, fp`dirty, fp`err, fp.obj`objsize, fp.buf
    ensures fp.fs.WindowOk() && SameElsewhere(fp.fs.g, fp.List(), old(fp.fs.View()), fp.fs.View())
    ensures old(fp.err) == OK ==> Mapped(fp)
    ensures old(fp.err) != OK ==> res == old(fp.err)
    ensures old(fp.err) == OK && !fp.canRead ==> res == DENIED && fp.Ok() && fp.Data() == old(fp.Data())
    ensures old(fp.err) != OK || !fp.canRead ==> br == 0 && mem[..] == old(mem[..])
    ensures old(fp.err) == OK && fp.canRead ==>
              && br <= btr && old(fp.fptr) + br <= |old(fp.Data())|
              && mem[..] == Splice(old(mem[..]), base, old(fp.Data())[old(fp.fptr)..old(fp.fptr) + br])
    ensures res == OK ==> br == if btr > old(fp.obj.objsize - fp.fptr) then old(fp.obj.objsize - fp.fptr) else btr
    ensures res == OK ==> fp.Ok() && fp.Data() == old(fp.Data()) && fp.fptr == old(fp.fptr) + br
    ensures old(fp.err) == OK && fp.canRead && res != OK ==> res == DISK_ERR == fp.err && fp.fs.faulted
  {
    hide FatTable.Links, FatTable.Bits, FatBytes, BitmapBytes, Mirrored, FatAgrees, BitsAgree, SectorOf, Denotes, Overlaid;
    hide FATFS.TableOk, FATFS.ListsOk, Content, Placed, Sized, Holds, ClusterIndex, FIL.Ok, Buffered, SameElsewhere, Owned, Splice, MapOf;
    br := 0;
    SameElsewhereRefl(fp.fs.g, fp.List(), fp.fs.View());
    if fp.err != OK {
      return fp.err, br;
    }
    if !fp.canRead {
      return DENIED, br;
    }
    var n := btr;
    if n > fp.obj.objsize - fp.fptr {
      n := fp.obj.objsize - fp.fptr;
    }
    res, br := ReadLoop(fp, mem, base, n, fp.Data(), fp.fptr, mem[..]);
    if res != OK {
      fp.err := res;
    }
  }
}
