/** f_getfree: counting the free clusters, once per volume format. */
module Free {
  import opened Arith
  import opened Bytes
  import opened Layout
  import opened FatTable
  import opened Chains
  import opened Volume
  import opened Info
  import opened FatAccess
  import opened Bitmap
  import opened ChainOps

  /** How many of the first n marks are clear. */
  function Clear(used: seq<bool>, n: nat): (k: nat)
    requires n <= |used|
  {
    if n == 0 then 0 else Clear(used, n - 1) + if used[n - 1] then 0 else 1
  }

  ghost function FreeBelow(chains: ClusterLists, n: nat): set<nat> {
    set c: nat | c < n && 2 <= c && !Owned(chains, c)
  }

  lemma {:induction false} ClearIsFreeBelow(g: Geometry, used: seq<bool>, chains: ClusterLists, n: nat)
    requires n <= |used| == g.nFatent - 2 && forall c: nat :: g.IsCluster(c) ==> (used[c - 2] <==> Owned(chains, c))
    ensures Clear(used, n) == |FreeBelow(chains, n + 2)|
  {
    if n == 0 {
      assert FreeBelow(chains, 2) == {};
    } else {
      ClearIsFreeBelow(g, used, chains, n - 1);
      assert g.IsCluster(n + 1);
      if used[n - 1] {
        assert FreeBelow(chains, n + 2) == FreeBelow(chains, n + 1);
      } else {
        assert FreeBelow(chains, n + 2) == FreeBelow(chains, n + 1) + {n + 1};
      }
    }
  }

  /** Marks that agree with the cluster lists count the free clusters. */
  lemma ClearIsFree(g: Geometry, used: seq<bool>, chains: ClusterLists)
    requires g.nFatent > 2
    requires |used| == g.nFatent - 2 && forall c: nat :: g.IsCluster(c) ==> (used[c - 2] <==> Owned(chains, c))
    ensures Clear(used, |used|) == |FreeClusters(g, chains)|
  {
    ClearIsFreeBelow(g, used, chains, |used|);
    assert FreeBelow(chains, g.nFatent) == FreeClusters(g, chains);
  }

  /** Which links of the FAT are not zero. */
  function Taken(f: seq<dword>): (t: seq<bool>)
    ensures |t| == |f|
  {
    seq(|f|, c requires 0 <= c < |f| => f[c] != 0)
  }

  lemma {:induction false} ClearFrom(t: seq<bool>, k: nat, n: nat)
    requires k <= n <= |t|
    ensures Clear(t, n) == Clear(t, k) + Clear(t[k..], n - k)
  {
    if k < n {
      ClearFrom(t, k, n - 1);
    }
  }

  // x shifted right by k bits.
  function Shr(x: nat, k: nat): nat {
    if k == 0 then x else Shr(x / 2, k - 1)
  }

  lemma {:induction false} ShrBit(x: nat, k: nat)
    ensures BitOf(x, k) <==> Shr(x, k) % 2 == 1
    ensures Shr(x, k + 1) == Shr(x, k) / 2
  {
    if k > 0 {
      ShrBit(x / 2, k - 1);
    }
  }

  // Bit b of byte x is mark k + b.
  ghost predicate Marks(bits: seq<bool>, k: nat, x: byte, b: nat) {
    b < 8 && k + b < |bits| ==> (BitOf(x, b) <==> bits[k + b])
  }

  // Byte x holds marks k to k + 7.
  ghost predicate ByteMarks(bits: seq<bool>, k: nat, x: byte) {
    forall b: nat :: Marks(bits, k, x, b)
  }

  // f_getfree on exFAT: the clear bits among the first clst of one byte of the bitmap.
  method CountByte(x: byte, clst0: nat, ghost bits: seq<bool>, ghost k: nat) returns (clst: nat, n: nat)
    requires k + clst0 == |bits| && ByteMarks(bits, k, x)
    ensures clst == (if clst0 < 8 then 0 else clst0 - 8) && Clear(bits, k) + n == Clear(bits, |bits| - clst)
  {
    hide BitOf;
    n, clst := 0, clst0;
    var b: nat, bm: nat := 8, x;
    while b > 0 && clst > 0
      invariant b <= 8 && clst <= clst0 && clst0 - clst == 8 - b && bm == Shr(x, 8 - b)
      invariant Clear(bits, k) + n == Clear(bits, |bits| - clst)
    {
      ShrBit(x, 8 - b);
      assert Marks(bits, k, x, 8 - b);
      if bm % 2 == 0 {
        n := n + 1;
      }
      bm := bm / 2;
      b, clst := b - 1, clst - 1;
    }
  }

  // Where byte j of the bitmap is, and what it says.
  lemma ByteOfBits(g: Geometry, v: seq<Sector>, j: nat)
    requires g.Ok() && g.fsType == EXFAT && |v| == g.total && 8 * j < g.nFatent - 2
    ensures var s := g.bitbase + j / SECTOR_SIZE;
            && g.bitbase <= s < g.bitbase + g.BitmapSectors() <= |v|
            && ByteMarks(Bits(g, BitmapBytes(g, v)), 8 * j, v[s][j % SECTOR_SIZE])
  {
    hide BitOf, BitmapBytes, FatTable.Bits, Geometry.Ok;
    assert 8 * j / 8 == j && 8 * j % 8 == 0;
    PlacedBit(g, v, 8 * j, g.bitbase + j / SECTOR_SIZE, j % SECTOR_SIZE, 0);
    var bits, k, x := Bits(g, BitmapBytes(g, v)), 8 * j, v[g.bitbase + j / SECTOR_SIZE][j % SECTOR_SIZE];
    forall b: nat ensures Marks(bits, k, x, b) {
      if b < 8 && 8 * j + b < g.nFatent - 2 {
        DivUnique(8 * j + b, 8, j, b);
        PlacedBit(g, v, 8 * j + b, g.bitbase + j / SECTOR_SIZE, j % SECTOR_SIZE, b);
      }
    }
  }

  // Item j of a table is number i of its sector; sect is that sector if i is 0, the one behind it if not.
  ghost predicate ScanPlace(base: nat, per: nat, j: nat, i: nat, sect: nat)
    requires per > 0
  {
    i == j % per && sect == base + j / per + if i == 0 then 0 else 1
  }

  // The sector behind that of item j.
  function SectorAfter(base: nat, per: nat, j: nat): nat
    requires per > 0
  {
    base + j / per + 1
  }

  function NextIn(i: nat, per: nat): nat
    requires per > 0
  {
    (i + 1) % per
  }

  lemma ScanNext(base: nat, per: nat, j: nat, i: nat, sect: nat)
    requires per > 0 && ScanPlace(base, per, j, i, sect)
    ensures ScanPlace(base, per, j + 1, NextIn(i, per), SectorAfter(base, per, j))
  {
    if i + 1 < per {
      BlockOffset(j, per, 1);
      SmallMod(i + 1, per);
    } else {
      MulSucc(per, j / per);
      DivUnique(j + 1, per, j / per + 1, 0);
    }
  }

  // Between sectors, or behind sector sect - 1, which is in the window.
  ghost predicate InWindow(fs: FATFS, i: nat, sect: nat)
    reads fs, fs.win
  {
    i != 0 ==> 0 < sect <= |fs.View()| && fs.win[..] == fs.View()[sect - 1]
  }

  // The exFAT scan of f_getfree: byte j of the bitmap.
  method NextBitmapByte(fs: FATFS, i: nat, sect0: nat, ghost j: nat) returns (res: FRESULT, sect: nat, x: byte)
    requires fs.WindowOk() && fs.BitmapOk() && 8 * j < fs.g.nFatent - 2
    requires ScanPlace(fs.g.bitbase, SECTOR_SIZE, j, i, sect0) && InWindow(fs, i, sect0)
    modifies fs`disk, fs`faulted, fs`wflag, fs`winsect, fs.win
    ensures fs.WindowOk() && SameView(fs.g, old(fs.View()), fs.View()) && fs.Fat() == old(fs.Fat()) && fs.Bits() == old(fs.Bits())
    ensures res == OK ==> sect == SectorAfter(fs.g.bitbase, SECTOR_SIZE, j) && 0 < sect <= |fs.View()| && fs.win[..] == fs.View()[sect - 1]
    ensures res == OK ==> ByteMarks(fs.Bits(), 8 * j, x)
    ensures res != OK ==> res == DISK_ERR && fs.faulted
    ensures old(fs.faulted) ==> fs.faulted
  {
    hide FatBytes, Overlaid, Mirrored, BitmapBytes, FatTable.Bits, Geometry.Meta, ByteMarks;
    res, sect, x := OK, sect0, 0;
    ByteOfBits(fs.g, fs.View(), j);
    if i == 0 {
      res := LoadBitmap(fs, sect);
      sect := sect + 1;
      if res != OK {
        return;
      }
      ByteOfBits(fs.g, fs.View(), j);
    }
    x := fs.win[i];
    assert sect - 1 == fs.g.bitbase + j / SECTOR_SIZE;
    assert x == fs.win[..][i] == fs.View()[fs.g.bitbase + j / SECTOR_SIZE][j % SECTOR_SIZE];
  }

  // The exFAT scan of f_getfree.
  method CountBitmap(fs: FATFS) returns (res: FRESULT, nfree: nat)
    requires fs.WindowOk() && fs.BitmapOk()
    modifies fs`disk, fs`faulted, fs`wflag, fs`winsect, fs.win
    ensures fs.WindowOk() && SameView(fs.g, old(fs.View()), fs.View()) && fs.Fat() == old(fs.Fat()) && fs.Bits() == old(fs.Bits())
    ensures res == OK ==> nfree == Clear(fs.Bits(), |fs.Bits()|)
    ensures res != OK ==> res == DISK_ERR && fs.faulted
    ensures old(fs.faulted) ==> fs.faulted
  {
    hide FatBytes, Overlaid, Mirrored, BitmapBytes, FatTable.Bits, Geometry.Meta, ByteMarks, SameView, Clear, BitmapIsMeta, ScanPlace, SectorAfter;
    SameViewRefl(fs.g, fs.View());
    ClearNone(fs.Bits());
    ScanFirst(fs.g.bitbase, SECTOR_SIZE);
    ghost var bits := fs.Bits();
    var clst: nat, sect: nat, i: nat := fs.g.nFatent - 2, fs.g.bitbase, 0;
    ghost var j: nat := 0;
    res, nfree := OK, 0;
    while true
      invariant fs.WindowOk() && SameView(fs.g, old(fs.View()), fs.View()) && fs.Fat() == old(fs.Fat()) && fs.Bits() == bits
      invariant res == OK && clst > 0 && (old(fs.faulted) ==> fs.faulted)
      invariant 8 * j + clst == |bits| && nfree == Clear(bits, 8 * j)
      invariant ScanPlace(fs.g.bitbase, SECTOR_SIZE, j, i, sect) && InWindow(fs, i, sect)
      decreases clst
    {
      ghost var u, was := fs.View(), sect;
      var x, n;
      res, sect, x := NextBitmapByte(fs, i, sect, j);
      SameViewTwice(fs.g, old(fs.View()), u, fs.View());
      if res != OK {
        return;
      }
      clst, n := CountByte(x, clst, bits, 8 * j);
      nfree := nfree + n;
      ScanNext(fs.g.bitbase, SECTOR_SIZE, j, i, was);
      i := NextIn(i, SECTOR_SIZE);
      if clst == 0 {
        break;
      }
      j := j + 1;
    }
  }

  lemma ScanFirst(base: nat, per: nat)
    requires per > 0
    ensures ScanPlace(base, per, 0, 0, base)
  {
  }

  // The FAT12 scan of f_getfree.
  method CountFat12(fs: FATFS, obj: FFOBJID) returns (res: FRESULT, nfree: nat)
    requires fs.WindowOk() && fs.g.fsType == FAT12
    modifies fs`disk, fs`faulted, fs`wflag, fs`winsect, fs.win
    ensures fs.WindowOk() && SameView(fs.g, old(fs.View()), fs.View()) && fs.Fat() == old(fs.Fat())
    ensures res == OK ==> nfree == Clear(Taken(fs.Links())[2..], fs.g.nFatent - 2)
    ensures res == INT_ERR ==> exists c :: fs.g.IsCluster(c) && fs.Links()[c] == BAD
    ensures res == OK || res == INT_ERR || (res == DISK_ERR && fs.faulted)
    ensures old(fs.faulted) ==> fs.faulted
  {
    hide FatBytes, Overlaid, Mirrored, FatTable.Links;
    ghost var f := fs.Links();
    var clst: dword := 2;
    res, nfree := OK, 0;
    while true
      invariant fs.WindowOk() && SameView(fs.g, old(fs.View()), fs.View()) && fs.Fat() == old(fs.Fat()) && res == OK
      invariant 2 <= clst < fs.g.nFatent && nfree == Clear(Taken(f)[2..], clst - 2) && (old(fs.faulted) ==> fs.faulted)
      decreases fs.g.nFatent - clst
    {
      var stat := GetFat(fs, obj, clst);
      if stat == 0xFFFF_FFFF {
        return DISK_ERR, nfree;
      }
      if stat == 1 {
        return INT_ERR, nfree;
      }
      if stat == 0 {
        nfree := nfree + 1;
      }
      clst := clst + 1;
      if !(clst < fs.g.nFatent) {
        break;
      }
    }
  }

  // Entries of a 16- or 32-bit FAT per sector.
  function PerSector(t: FsType): nat {
    if t == FAT16 then 256 else 128
  }

  lemma EntryBytes(t: FsType, c: nat)
    requires t == FAT16 || t == FAT32
    ensures Offset(t, c) / SECTOR_SIZE == c / PerSector(t) && Offset(t, c) % SECTOR_SIZE == c % PerSector(t) * Width(t)
    ensures c % PerSector(t) * Width(t) + Width(t) <= SECTOR_SIZE
  {
    if t == FAT16 {
      EvenOffset(c);
    } else {
      QuadOffset(c);
    }
  }

  // A FAT16 or FAT32 entry as a sector holds it.
  function RawIn(t: FsType, s: seq<byte>, i: nat): dword
    requires (t == FAT16 || t == FAT32) && |s| == SECTOR_SIZE && i + Width(t) <= SECTOR_SIZE
  {
    if t == FAT16 then LdWord(s, i) else LdDword(s, i) % 0x1000_0000
  }

  lemma EntryInSector(g: Geometry, v: seq<Sector>, c: nat)
    requires g.Ok() && |v| == g.total && (g.fsType == FAT16 || g.fsType == FAT32) && c < g.nFatent
    ensures var s, i := g.fatbase + c / PerSector(g.fsType), c % PerSector(g.fsType) * Width(g.fsType);
            && s < g.fatbase + g.fsize <= |v| && i + Width(g.fsType) <= SECTOR_SIZE
            && RawIn(g.fsType, v[s], i) == Links(g.fsType, FatBytes(g, v), g.nFatent)[c]
  {
    hide LdWord, LdDword;
    var t, b := g.fsType, FatBytes(g, v);
    FatInside(g);
    EntryInside(t, c, g.nFatent);
    EntryBytes(t, c);
    SectorOfRegion(v, g.fatbase, g.fsize, Offset(t, c), Width(t));
    LinkFromWord(t, b, g.nFatent, c);
    var s, i := g.fatbase + c / PerSector(t), c % PerSector(t) * Width(t);
    if t == FAT16 {
      SameWord(v[s], i, b, Offset(t, c));
    } else {
      SameDword(v[s], i, b, Offset(t, c));
    }
  }

  // Byte offset of entry e of a sector.
  function InSector(t: FsType, e: nat): nat {
    e * Width(t)
  }

  lemma NextOffset(t: FsType, base: nat, c: nat, e: nat, sect: nat)
    requires (t == FAT16 || t == FAT32) && PerSector(t) > 0 && ScanPlace(base, PerSector(t), c, e, sect)
    ensures (InSector(t, e) + if t == FAT16 then 2 else 4) % SECTOR_SIZE == InSector(t, NextIn(e, PerSector(t)))
    ensures InSector(t, e) == 0 <==> e == 0
  {
    if e + 1 < PerSector(t) {
      SmallMod(e + 1, PerSector(t));
    }
  }

  // The FAT16 and FAT32 scan of f_getfree: is entry c zero?
  method NextEntry(fs: FATFS, i: nat, sect0: nat, ghost c: nat, ghost e: nat) returns (res: FRESULT, sect: nat, zero: bool)
    requires fs.WindowOk() && (fs.g.fsType == FAT16 || fs.g.fsType == FAT32) && c < fs.g.nFatent
    requires PerSector(fs.g.fsType) > 0 && ScanPlace(fs.g.fatbase, PerSector(fs.g.fsType), c, e, sect0)
    requires i == InSector(fs.g.fsType, e) && InWindow(fs, i, sect0)
    modifies fs`disk, fs`faulted, fs`wflag, fs`winsect, fs.win
    ensures fs.WindowOk() && SameView(fs.g, old(fs.View()), fs.View()) && fs.Fat() == old(fs.Fat())
    ensures res == OK ==> sect == SectorAfter(fs.g.fatbase, PerSector(fs.g.fsType), c) && 0 < sect <= |fs.View()| && fs.win[..] == fs.View()[sect - 1]
    ensures res == OK ==> zero == (fs.Links()[c] == 0)
    ensures res != OK ==> res == DISK_ERR && fs.faulted
    ensures old(fs.faulted) ==> fs.faulted
  {
    hide FatBytes, Overlaid, Mirrored, FatTable.Links, LdWord, LdDword, PerSector, Geometry.Meta;
    res, sect, zero := OK, sect0, false;
    NextOffset(fs.g.fsType, fs.g.fatbase, c, e, sect0);
    EntryInSector(fs.g, fs.View(), c);
    if i == 0 {
      Fat1IsMeta(fs.g, fs.sys, sect);
      res := fs.MoveWindow(sect);
      sect := sect + 1;
      if res != OK {
        return;
      }
      EntryInSector(fs.g, fs.View(), c);
    }
    if fs.g.fsType == FAT16 {
      zero := LdWord(fs.win[..], i) == 0;
    } else {
      zero := LdDword(fs.win[..], i) % 0x1000_0000 == 0;
    }
  }

  // The FAT16 and FAT32 scan of f_getfree: it counts entries 0 and 1 too.
  method CountFatWide(fs: FATFS) returns (res: FRESULT, nfree: nat)
    requires fs.WindowOk() && (fs.g.fsType == FAT16 || fs.g.fsType == FAT32)
    modifies fs`disk, fs`faulted, fs`wflag, fs`winsect, fs.win
    ensures fs.WindowOk() && SameView(fs.g, old(fs.View()), fs.View()) && fs.Fat() == old(fs.Fat())
    ensures res == OK ==> nfree == Clear(Taken(fs.Links()), fs.g.nFatent)
    ensures res != OK ==> res == DISK_ERR && fs.faulted
    ensures old(fs.faulted) ==> fs.faulted
  {
    hide FatBytes, Overlaid, Mirrored, FatTable.Links, Width, PerSector, SameView, Geometry.Meta, Clear, ScanPlace, Taken, InSector, NextIn, SectorAfter;
    ghost var t, f := fs.g.fsType, fs.Links();
    SameViewRefl(fs.g, fs.View());
    ClearNone(Taken(f));
    PerSectorPositive(t);
    ScanFirst(fs.g.fatbase, PerSector(t));
    assert InSector(t, 0) == 0 by { NextOffset(t, fs.g.fatbase, 0, 0, fs.g.fatbase); }
    var clst: nat, sect: nat, i: nat := fs.g.nFatent, fs.g.fatbase, 0;
    ghost var c: nat, e: nat := 0, 0;
    res, nfree := OK, 0;
    while true
      invariant fs.WindowOk() && SameView(fs.g, old(fs.View()), fs.View()) && fs.Fat() == old(fs.Fat())
      invariant res == OK && clst > 0 && (old(fs.faulted) ==> fs.faulted)
      invariant c + clst == fs.g.nFatent && nfree == Clear(Taken(f), c) && ScanPlace(fs.g.fatbase, PerSector(t), c, e, sect)
      invariant i == InSector(t, e) && InWindow(fs, i, sect)
      decreases clst
    {
      ghost var u, was := fs.View(), sect;
      NextOffset(t, fs.g.fatbase, c, e, sect);
      var zero;
      res, sect, zero := NextEntry(fs, i, sect, c, e);
      SameViewTwice(fs.g, old(fs.View()), u, fs.View());
      if res != OK {
        return;
      }
      ClearMore(f, c);
      if zero {
        nfree := nfree + 1;
      }
      i := (i + if fs.g.fsType == FAT16 then 2 else 4) % SECTOR_SIZE;
      ScanNext(fs.g.fatbase, PerSector(t), c, e, was);
      clst := clst - 1;
      if clst == 0 {
        break;
      }
      c, e := c + 1, NextIn(e, PerSector(t));
    }
  }

  lemma SameViewRefl(g: Geometry, v: seq<Sector>)
    ensures SameView(g, v, v)
  {
  }

  lemma SameViewTwice(g: Geometry, u: seq<Sector>, v: seq<Sector>, w: seq<Sector>)
    requires SameView(g, u, v) && SameView(g, v, w)
    ensures SameView(g, u, w)
  {
  }

  lemma ClearNone(t: seq<bool>)
    ensures Clear(t, 0) == 0
  {
  }

  lemma ClearMore(f: seq<dword>, c: nat)
    requires c < |f|
    ensures Clear(Taken(f), c + 1) == Clear(Taken(f), c) + if f[c] == 0 then 1 else 0
  {
  }

  lemma PerSectorPositive(t: FsType)
    ensures PerSector(t) > 0
    ensures t == FAT16 ==> Width(t) == 2
    ensures t == FAT32 ==> Width(t) == 4
  {
  }

  // How many of the two reserved entries of the FAT are zero.
  function ReservedZeros(f: seq<dword>): nat
    requires |f| >= 2
  {
    (if f[0] == 0 then 1 else 0) + if f[1] == 0 then 1 else 0
  }

  // Counting links counts the free clusters, and the reserved entries where they are included.
  lemma CountedLinks(g: Geometry, f: seq<dword>, chains: ClusterLists)
    requires g.Ok() && FatAgrees(g, f, chains)
    ensures Clear(Taken(f)[2..], g.nFatent - 2) == |FreeClusters(g, chains)|
    ensures Clear(Taken(f), g.nFatent) == |FreeClusters(g, chains)| + ReservedZeros(f)
  {
    hide Spelled, FreeClusters, Owned;
    var t := Taken(f);
    forall c: nat | g.IsCluster(c) ensures t[2..][c - 2] <==> Owned(chains, c) {
    }
    ClearIsFree(g, t[2..], chains);
    ClearFrom(t, 2, g.nFatent);
    assert Clear(t, 2) == ReservedZeros(f) by {
      assert Clear(t, 1) == (if t[0] then 0 else 1);
    }
  }

  /** A FAT16 volume with one cluster more than FAT12 can have. */
  function SmallFat16(): (g: Geometry)
    ensures g.Ok() && g.fsType == FAT16
  {
    Geometry(FAT16, 1, 1, MAX_FAT12 + 3, 16, 0, 1, 17, 18, 0, 16, 18 + MAX_FAT12 + 1)
  }

  /** With a FAT of zeros all its clusters are free, and the scan finds two more. */
  lemma CountedTooMany(f: seq<dword>)
    requires |f| == SmallFat16().nFatent && forall c :: 0 <= c < |f| ==> f[c] == 0
    ensures FatAgrees(SmallFat16(), f, map[])
    ensures |FreeClusters(SmallFat16(), map[])| == MAX_FAT12 + 1
    ensures Clear(Taken(f), |f|) == MAX_FAT12 + 3
  {
    CountedLinks(SmallFat16(), f, map[]);
    NoneTaken(Taken(f), |f|);
  }

  lemma {:induction false} NoneTaken(t: seq<bool>, n: nat)
    requires n <= |t| && forall c :: 0 <= c < |t| ==> !t[c]
    ensures Clear(t, n) == n
  {
    if n > 0 {
      NoneTaken(t, n - 1);
    }
  }

  // What f_getfree counts with a scan.
  ghost function Scanned(fs: FATFS): nat
    requires fs.WindowOk()
    reads fs, fs.win
  {
    |FreeClusters(fs.g, fs.chains)|
    + if fs.g.fsType == FAT16 || fs.g.fsType == FAT32 then ReservedZeros(fs.Links()) else 0
  }

  method ScanVolume(fs: FATFS, obj: FFOBJID) returns (res: FRESULT, nfree: nat)
    requires fs.Valid()
    modifies fs`disk, fs`faulted, fs`wflag, fs`winsect, fs.win
    ensures fs.Valid() && SameView(fs.g, old(fs.View()), fs.View()) && fs.Links() == old(fs.Links())
    ensures res == OK ==> nfree == old(Scanned(fs))
    ensures res != OK ==> res == DISK_ERR && fs.faulted
    ensures old(fs.faulted) ==> fs.faulted
  {
    hide FatBytes, Overlaid, Mirrored, FatTable.Links, BitmapBytes, FatTable.Bits, FatAgrees, BitsAgree, Disjoint, FreeClusters, CountOk, ReservedZeros;
    ghost var f, v := fs.Links(), fs.View();
    VolumeCount(fs);
    if fs.g.fsType == FAT12 {
      res, nfree := CountFat12(fs, obj);
      if res == INT_ERR {
        ghost var c :| fs.g.IsCluster(c) && f[c] == BAD;
        NoBadLink(fs.g, f, fs.chains, c);
      }
    } else if fs.g.fsType == EXFAT {
      res, nfree := CountBitmap(fs);
    } else {
      res, nfree := CountFatWide(fs);
    }
    if fs.g.fsType == EXFAT {
      SameViewOutside(fs.g, v, fs.View());
      SameBitmap(fs.g, v, fs.View());
    }
  }

  lemma VolumeCount(fs: FATFS)
    requires fs.Valid()
    ensures fs.g.fsType == EXFAT ==> Clear(fs.Bits(), |fs.Bits()|) == Scanned(fs)
    ensures fs.g.fsType == FAT12 ==> Clear(Taken(fs.Links())[2..], fs.g.nFatent - 2) == Scanned(fs)
    ensures fs.g.fsType == FAT16 || fs.g.fsType == FAT32 ==> Clear(Taken(fs.Links()), fs.g.nFatent) == Scanned(fs)
  {
    hide FreeClusters, FatTable.Links, FatTable.Bits, Disjoint, CountOk, Geometry.Meta;
    if fs.g.fsType == EXFAT {
      ClearIsFree(fs.g, fs.Bits(), fs.chains);
    } else {
      CountedLinks(fs.g, fs.Links(), fs.chains);
    }
  }

  /** f_getfree. A remembered count is returned as it is. A scan gives the number of free
      clusters, plus one for each reserved FAT16 or FAT32 entry that is zero; only without such
      entries is the count that it remembers right. */
  method GetFree(fs: FATFS, obj: FFOBJID) returns (res: FRESULT, nclst: nat)
    requires fs.Valid()
    modifies fs`disk, fs`faulted, fs`wflag, fs`winsect, fs.win, fs`freeClst, fs`fsiFlag
    ensures fs.WindowOk() && SameView(fs.g, old(fs.View()), fs.View()) && fs.Links() == old(fs.Links())
    ensures res == OK && old(fs.freeClst) <= fs.g.nFatent - 2 ==> nclst == |FreeClusters(fs.g, fs.chains)|
    ensures res == OK && old(fs.freeClst) > fs.g.nFatent - 2 ==> nclst == Scanned(fs) == fs.freeClst
    ensures res == OK && nclst == |FreeClusters(fs.g, fs.chains)| ==> fs.Valid()
    ensures res != OK ==> res == DISK_ERR && fs.faulted && fs.Valid()
    ensures Noted(old(fs.freeClst), old(fs.fsiFlag), fs.freeClst, fs.fsiFlag)
    ensures old(InfoOk(fs)) ==> InfoOk(fs)
  {
    hide FatBytes, Overlaid, Mirrored, FatTable.Links, BitmapBytes, FatTable.Bits, FatAgrees, BitsAgree, Disjoint, FreeClusters, ReservedZeros, Geometry.Meta, InfoOk;
    nclst := 0;
    if fs.freeClst <= fs.g.nFatent - 2 {
      return OK, fs.freeClst;
    }
    res, nclst := ScanVolume(fs, obj);
    if res == OK {
      ScannedFits(fs);
      fs.freeClst := nclst;
      fs.fsiFlag := Dirtied(fs.fsiFlag);
    }
    SameViewOutside(fs.g, old(fs.View()), fs.View());
    InfoStays(fs);
  }

  lemma ScannedFits(fs: FATFS)
    requires fs.Valid()
    ensures Scanned(fs) < 0x1_0000_0000
  {
    FreeBound(fs.g, fs.chains);
    hide FreeClusters, FatTable.Links, FATFS.TableOk;
  }
}
