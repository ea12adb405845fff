/** Where things are on a volume, and what equal volume contents means. */
module Layout {
  import opened Arith
  import opened Bytes

  datatype FsType = FAT12 | FAT16 | FAT32 | EXFAT

  datatype FRESULT = OK | DISK_ERR | INT_ERR | NO_FILE | DENIED | NOT_ENOUGH_CORE | NO_FILESYSTEM | INVALID_NAME | MKFS_ABORTED | INVALID_PARAMETER

  // winsect when the window holds no sector: (LBA_t)0 - 1
  const NO_SECTOR: nat := 0xFFFF_FFFF_FFFF_FFFF

  // What get_fat returns for an internal error and for a disk error.
  const BAD: dword := 1
  const IO_ERROR: dword := 0xFFFF_FFFF

  const MAX_FAT12 := 0xFF5
  const MAX_FAT16 := 0xFFF5
  const MAX_FAT32 := 0x0FFF_FFF5
  const MAX_EXFAT := 0x7FFF_FFFD

  function MaxClusters(t: FsType): nat {
    match t
    case FAT12 => MAX_FAT12
    case FAT16 => MAX_FAT16
    case FAT32 => MAX_FAT32
    case EXFAT => MAX_EXFAT
  }

  /** Bytes of FAT needed for n entries. */
  function FatBytesNeeded(t: FsType, n: nat): nat {
    match t
    case FAT12 => n * 3 / 2 + n % 2
    case FAT16 => n * 2
    case FAT32 => n * 4
    case EXFAT => n * 4
  }

  /** What mounting leaves in the file system object and nothing changes later.
      total is the number of sectors of the drive. */
  datatype Geometry = Geometry(fsType: FsType, csize: nat, nFats: nat, nFatent: nat, fsize: nat, volbase: nat,
                               fatbase: nat, dirbase: nat, database: nat, bitbase: nat, nRootdir: nat, total: nat)
  {
    ghost predicate Ok() {
      && 1 <= csize && 1 <= nFats <= 2 && 2 < nFatent <= MaxClusters(fsType) + 2
      && FatBytesNeeded(fsType, nFatent) <= fsize * SECTOR_SIZE
      && volbase < fatbase && fatbase + nFats * fsize <= database
      && DataEnd() <= total < NO_SECTOR
      && (fsType == EXFAT ==> nFats == 1 && database <= bitbase && bitbase + BitmapSectors() <= DataEnd())
    }

    // First sector behind the last cluster.
    function DataEnd(): int {
      database + csize * (nFatent - 2)
    }

    function BitmapSectors(): int {
      (nFatent - 2 + 4095) / 4096
    }

    predicate IsCluster(c: int) {
      2 <= c < nFatent
    }

    predicate InFat1(s: int) {
      fatbase <= s < fatbase + fsize
    }

    predicate InFat2(s: int) {
      nFats == 2 && fatbase + fsize <= s < fatbase + 2 * fsize
    }

    predicate InTables(s: int) {
      InFat1(s) || InFat2(s) || (fsType == EXFAT && bitbase <= s < bitbase + BitmapSectors())
    }

    // First sector of a cluster, when the cluster number is valid.
    function FirstSector(c: int): int {
      database + csize * (c - 2)
    }

    // clst2sect: 0 for an invalid cluster number. Numbers below 2 wrap around to large ones.
    function ToSector(clst: nat): int {
      if clst < 2 || clst - 2 >= nFatent - 2 then 0 else FirstSector(clst)
    }

    ghost predicate InCluster(c: int, s: int) {
      FirstSector(c) <= s < FirstSector(c) + csize
    }

    /** The sectors only ever reached through the window: everything outside
        the data area and the clusters of sys (directories, the exFAT bitmap).
        The second FAT is written behind the window's back. */
    ghost predicate Meta(sys: set<nat>, s: int) {
      && 0 <= s < total && !InFat2(s)
      && forall c :: IsCluster(c) && InCluster(c, s) ==> c in sys
    }
  }

  /** The bitmap of an exFAT volume is metadata. */
  ghost predicate BitmapIsMeta(g: Geometry, sys: set<nat>) {
    g.fsType == EXFAT ==> forall s :: g.bitbase <= s < g.bitbase + g.BitmapSectors() ==> g.Meta(sys, s)
  }

  /** The drive with the dirty window laid over it. */
  function Overlaid(disk: seq<Sector>, dirty: bool, s: nat, w: seq<byte>): seq<Sector> {
    if dirty && s < |disk| && |w| == SECTOR_SIZE then disk[s := w] else disk
  }

  /** Equal logical contents, apart from the second FAT, which lags behind. */
  ghost predicate SameView(g: Geometry, a: seq<Sector>, b: seq<Sector>) {
    |a| == |b| && forall s :: 0 <= s < |a| && !g.InFat2(s) ==> a[s] == b[s]
  }

  /** Equal contents outside the FATs. */
  ghost predicate SameOutsideFats(g: Geometry, a: seq<Sector>, b: seq<Sector>) {
    |a| == |b| && forall s :: 0 <= s < |a| && !g.InFat1(s) && !g.InFat2(s) ==> a[s] == b[s]
  }

  /** Equal contents outside the FATs and, on exFAT, the bitmap. */
  ghost predicate SameOutsideTables(g: Geometry, a: seq<Sector>, b: seq<Sector>) {
    |a| == |b| && forall s :: 0 <= s < |a| && !g.InTables(s) ==> a[s] == b[s]
  }

  // Every sector of the first FAT that is not waiting in the window equals its copy.
  ghost predicate Mirrored(g: Geometry, disk: seq<Sector>, dirty: bool, winsect: nat)
    requires g.Ok() && |disk| == g.total
  {
    g.nFats == 2 ==>
      forall s :: g.InFat1(s) && !(dirty && s == winsect) ==> s + g.fsize < |disk| && disk[s] == disk[s + g.fsize]
  }

  lemma ClusterBounds(g: Geometry, c: int)
    requires g.csize >= 1 && g.IsCluster(c)
    ensures g.database <= g.FirstSector(c) && g.FirstSector(c) + g.csize <= g.DataEnd()
  {
    MulLe(g.csize, 0, c - 2);
    MulLe(g.csize, c - 1, g.nFatent - 2);
    MulSucc(g.csize, c - 2);
  }

  lemma ClustersDisjoint(g: Geometry, c: int, d: int, s: int)
    requires g.InCluster(c, s) && g.InCluster(d, s)
    ensures c == d
  {
    MulSucc(g.csize, c - 2);
    MulSucc(g.csize, d - 2);
    MulLtInv(g.csize, c - 2, d - 1);
    MulLtInv(g.csize, d - 2, c - 1);
  }

  lemma FatInside(g: Geometry)
    requires g.Ok()
    ensures g.fatbase + g.fsize <= g.database <= g.DataEnd() <= g.total
    ensures g.nFats == 2 ==> g.fatbase + 2 * g.fsize <= g.database
  {
    MulLe(g.fsize, 1, g.nFats);
    MulLe(g.csize, 0, g.nFatent - 2);
  }

  lemma Fat1IsMeta(g: Geometry, sys: set<nat>, s: int)
    requires g.Ok() && g.InFat1(s)
    ensures g.Meta(sys, s)
  {
    FatInside(g);
    forall c | g.IsCluster(c) ensures !g.InCluster(c, s) {
      ClusterBounds(g, c);
    }
  }

  /** n sectors from base on, as one byte string. */
  ghost function Region(v: seq<Sector>, base: nat, n: nat): (b: seq<byte>)
    requires base + n <= |v|
    ensures |b| == n * SECTOR_SIZE
    ensures forall o :: 0 <= o < n * SECTOR_SIZE ==> b[o] == v[base + o / SECTOR_SIZE][o % SECTOR_SIZE]
  {
    seq(n * SECTOR_SIZE, o requires 0 <= o < n * SECTOR_SIZE => v[base + o / SECTOR_SIZE][o % SECTOR_SIZE])
  }

  lemma SameRegion(v: seq<Sector>, w: seq<Sector>, base: nat, n: nat)
    requires base + n <= |v| == |w| && forall s :: base <= s < base + n ==> v[s] == w[s]
    ensures Region(v, base, n) == Region(w, base, n)
  {
  }

  // Part of a sector changes.
  lemma SpliceRegion(v: seq<Sector>, base: nat, n: nat, s: nat, i: nat, x: seq<byte>)
    requires base <= s < base + n <= |v| && i + |x| <= SECTOR_SIZE
    ensures (s - base) * SECTOR_SIZE + i + |x| <= n * SECTOR_SIZE
    ensures Region(v[s := Splice(v[s], i, x)], base, n) == Splice(Region(v, base, n), (s - base) * SECTOR_SIZE + i, x)
  {
  }

  // Bytes of a region within one sector.
  lemma SectorOfRegion(v: seq<Sector>, base: nat, n: nat, o: nat, w: nat)
    requires base + n <= |v| && o % SECTOR_SIZE + w <= SECTOR_SIZE && o + w <= n * SECTOR_SIZE && 0 < w
    ensures base + o / SECTOR_SIZE < base + n
    ensures v[base + o / SECTOR_SIZE][o % SECTOR_SIZE..o % SECTOR_SIZE + w] == Region(v, base, n)[o..o + w]
  {
    var x, y := v[base + o / SECTOR_SIZE][o % SECTOR_SIZE..o % SECTOR_SIZE + w], Region(v, base, n)[o..o + w];
    forall k | 0 <= k < w ensures x[k] == y[k] {
      assert (o + k) / SECTOR_SIZE == o / SECTOR_SIZE && (o + k) % SECTOR_SIZE == o % SECTOR_SIZE + k;
    }
    assert x == y;
  }
}
