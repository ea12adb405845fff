/** Where the bytes of a file are: file offsets, sectors of its clusters, and the byte
    string that a cluster list and a length denote. */
module FileData {
  import opened Arith
  import opened Bytes
  import opened Layout
  import opened FatTable
  import opened Chains

  /** Sector number q of a file, counted over the clusters of its list. */
  function SectorOf(g: Geometry, ch: seq<nat>, q: nat): int
    requires g.csize > 0 && q < g.csize * |ch|
  {
    BlockIndex(q, g.csize, |ch|);
    g.FirstSector(ch[q / g.csize]) + q % g.csize
  }

  lemma SectorInCluster(g: Geometry, ch: seq<nat>, q: nat)
    requires g.Ok() && ClusterList(g, ch) && q < g.csize * |ch|
    ensures q / g.csize < |ch| && g.InCluster(ch[q / g.csize], SectorOf(g, ch, q))
    ensures 0 < g.database <= SectorOf(g, ch, q) < g.DataEnd() <= g.total
  {
    BlockIndex(q, g.csize, |ch|);
    ClusterBounds(g, ch[q / g.csize]);
  }

  lemma DistinctIndex(g: Geometry, ch: seq<nat>, i: nat, j: nat)
    requires ClusterList(g, ch) && i < |ch| && j < |ch| && ch[i] == ch[j]
    ensures i == j
  {
  }

  /** Different sectors of a file are different sectors of the volume. */
  lemma SectorsDistinct(g: Geometry, ch: seq<nat>, q: nat, r: nat)
    requires g.Ok() && ClusterList(g, ch) && q < g.csize * |ch| && r < g.csize * |ch|
    requires SectorOf(g, ch, q) == SectorOf(g, ch, r)
    ensures q == r
  {
    hide ClusterList, Geometry.Ok;
    SectorInCluster(g, ch, q);
    SectorInCluster(g, ch, r);
    ClustersDisjoint(g, ch[q / g.csize], ch[r / g.csize], SectorOf(g, ch, q));
    DistinctIndex(g, ch, q / g.csize, r / g.csize);
    SameBlock(q, r, g.csize);
  }

  /** The sectors of one cluster follow each other. */
  lemma SectorsFollow(g: Geometry, ch: seq<nat>, q: nat, d: nat)
    requires g.csize > 0 && q < g.csize * |ch| && q % g.csize + d < g.csize
    ensures q + d < g.csize * |ch| && SectorOf(g, ch, q + d) == SectorOf(g, ch, q) + d
  {
    BlockIndex(q, g.csize, |ch|);
    BlockOffset(q, g.csize, d);
    MulLe(g.csize, q / g.csize + 1, |ch|);
    MulSucc(g.csize, q / g.csize);
  }

  // A run of sectors from sector q on contains exactly the file sectors q .. q+n-1.
  lemma SectorsOfRun(g: Geometry, ch: seq<nat>, q: nat, n: nat, r: nat)
    requires g.Ok() && ClusterList(g, ch) && q < g.csize * |ch| && r < g.csize * |ch| && 0 < n && q % g.csize + n <= g.csize
    ensures SectorOf(g, ch, q) <= SectorOf(g, ch, r) < SectorOf(g, ch, q) + n <==> q <= r < q + n
    ensures q <= r < q + n ==> SectorOf(g, ch, r) == SectorOf(g, ch, q) + (r - q)
  {
    if q <= r < q + n {
      SectorsFollow(g, ch, q, r - q);
    } else if SectorOf(g, ch, q) <= SectorOf(g, ch, r) < SectorOf(g, ch, q) + n {
      var d := SectorOf(g, ch, r) - SectorOf(g, ch, q);
      SectorsFollow(g, ch, q, d);
      SectorsDistinct(g, ch, q + d, r);
    }
  }

  /** A list of clusters has room for size bytes. */
  ghost predicate Holds(g: Geometry, ch: seq<nat>, size: nat) {
    size <= SECTOR_SIZE * (g.csize * |ch|)
  }

  lemma HeldSector(g: Geometry, ch: seq<nat>, size: nat, i: nat)
    requires Holds(g, ch, size) && i < size
    ensures i / SECTOR_SIZE < g.csize * |ch|
  {
    BlockIndex(i, SECTOR_SIZE, g.csize * |ch|);
  }

  /** Byte i of a file. */
  ghost function ByteAt(g: Geometry, v: seq<Sector>, ch: seq<nat>, i: nat): byte
    requires g.Ok() && |v| == g.total && ClusterList(g, ch) && i / SECTOR_SIZE < g.csize * |ch|
  {
    SectorInCluster(g, ch, i / SECTOR_SIZE);
    v[SectorOf(g, ch, i / SECTOR_SIZE)][i % SECTOR_SIZE]
  }

  /** The contents of a file of the given length. */
  ghost function Content(g: Geometry, v: seq<Sector>, ch: seq<nat>, size: nat): (c: seq<byte>)
    requires g.Ok() && |v| == g.total && ClusterList(g, ch) && Holds(g, ch, size)
    ensures |c| == size
  {
    assert forall i :: 0 <= i < size ==> i / SECTOR_SIZE < g.csize * |ch| by {
      forall i | 0 <= i < size ensures i / SECTOR_SIZE < g.csize * |ch| {
        HeldSector(g, ch, size, i);
      }
    }
    seq(size, i requires 0 <= i < size => ByteAt(g, v, ch, i))
  }

  /** s with the bytes from position p <= |s| on replaced by x, growing as needed. */
  function Overwrite(s: seq<byte>, p: nat, x: seq<byte>): (r: seq<byte>)
    requires p <= |s|
    ensures |r| == if p + |x| > |s| then p + |x| else |s|
  {
    s[..p] + x + if p + |x| < |s| then s[p + |x|..] else []
  }

  /** From v to w, the file bytes from p on became x and no other byte below size changed. */
  ghost predicate Wrote(g: Geometry, v: seq<Sector>, w: seq<Sector>, ch: seq<nat>, size: nat, p: nat, x: seq<byte>)
    requires g.Ok() && |v| == |w| == g.total && ClusterList(g, ch) && Holds(g, ch, size) && Holds(g, ch, p + |x|)
  {
    forall i: nat :: (i < size || i < p + |x|) && i / SECTOR_SIZE < g.csize * |ch| ==>
      ByteAt(g, w, ch, i) == if p <= i < p + |x| then x[i - p] else ByteAt(g, v, ch, i)
  }

  lemma WroteContent(g: Geometry, v: seq<Sector>, w: seq<Sector>, ch: seq<nat>, size: nat, p: nat, x: seq<byte>)
    requires g.Ok() && |v| == |w| == g.total && ClusterList(g, ch) && Holds(g, ch, size) && Holds(g, ch, p + |x|)
    requires p <= size && Wrote(g, v, w, ch, size, p, x)
    ensures var size' := if p + |x| > size then p + |x| else size;
            Content(g, w, ch, size') == Overwrite(Content(g, v, ch, size), p, x)
  {
    var size' := if p + |x| > size then p + |x| else size;
    var c, d := Content(g, v, ch, size), Content(g, w, ch, size');
    forall i | 0 <= i < size' ensures d[i] == Overwrite(c, p, x)[i] {
      assert d[i] == ByteAt(g, w, ch, i);
    }
  }

  /** Bytes in units of sectors. */
  function Chunks(x: seq<byte>, n: nat): (r: seq<Sector>)
    requires n * SECTOR_SIZE <= |x|
    ensures |r| == n && forall k, o :: 0 <= k < n && 0 <= o < SECTOR_SIZE ==> r[k][o] == x[k * SECTOR_SIZE + o]
  {
    seq(n, k requires 0 <= k < n => x[k * SECTOR_SIZE..k * SECTOR_SIZE + SECTOR_SIZE])
  }

  // v with the sectors from s on replaced by d.
  ghost predicate Replaced(v: seq<Sector>, w: seq<Sector>, s: nat, d: seq<Sector>) {
    && |w| == |v| && s + |d| <= |v|
    && forall k :: 0 <= k < |v| ==> w[k] == if s <= k < s + |d| then d[k - s] else v[k]
  }

  lemma ChunkByte(i: nat, p: nat, n: nat)
    requires p % SECTOR_SIZE == 0 && p <= i
    ensures i < p + n * SECTOR_SIZE <==> i / SECTOR_SIZE < p / SECTOR_SIZE + n
    ensures p / SECTOR_SIZE <= i / SECTOR_SIZE
    ensures i - p == (i / SECTOR_SIZE - p / SECTOR_SIZE) * SECTOR_SIZE + i % SECTOR_SIZE
  {
  }

  /** Writing whole sectors of one cluster writes their bytes into the file. */
  lemma RunWritten(g: Geometry, v: seq<Sector>, w: seq<Sector>, ch: seq<nat>, size: nat, p: nat, x: seq<byte>, n: nat)
    requires g.Ok() && |v| == |w| == g.total && ClusterList(g, ch) && Holds(g, ch, size)
    requires p % SECTOR_SIZE == 0 && |x| == n * SECTOR_SIZE && 0 < n
    requires p / SECTOR_SIZE < g.csize * |ch| && p / SECTOR_SIZE % g.csize + n <= g.csize
    requires SectorOf(g, ch, p / SECTOR_SIZE) >= 0 && Replaced(v, w, SectorOf(g, ch, p / SECTOR_SIZE), Chunks(x, n))
    ensures Holds(g, ch, p + |x|) && Wrote(g, v, w, ch, size, p, x)
  {
    var q := p / SECTOR_SIZE;
    RunHeld(g, ch, p, n);
    forall i: nat | (i < size || i < p + |x|) && i / SECTOR_SIZE < g.csize * |ch|
      ensures ByteAt(g, w, ch, i) == if p <= i < p + |x| then x[i - p] else ByteAt(g, v, ch, i)
    {
      RunByte(g, v, w, ch, p, x, n, i);
    }
  }

  lemma RunHeld(g: Geometry, ch: seq<nat>, p: nat, n: nat)
    requires g.csize > 0 && p % SECTOR_SIZE == 0 && 0 < n
    requires p / SECTOR_SIZE < g.csize * |ch| && p / SECTOR_SIZE % g.csize + n <= g.csize
    ensures Holds(g, ch, p + n * SECTOR_SIZE)
  {
    SectorsFollow(g, ch, p / SECTOR_SIZE, n - 1);
    MulLe(SECTOR_SIZE, p / SECTOR_SIZE + n, g.csize * |ch|);
  }

  lemma RunByte(g: Geometry, v: seq<Sector>, w: seq<Sector>, ch: seq<nat>, p: nat, x: seq<byte>, n: nat, i: nat)
    requires g.Ok() && |v| == |w| == g.total && ClusterList(g, ch)
    requires p % SECTOR_SIZE == 0 && |x| == n * SECTOR_SIZE && 0 < n
    requires p / SECTOR_SIZE < g.csize * |ch| && p / SECTOR_SIZE % g.csize + n <= g.csize
    requires SectorOf(g, ch, p / SECTOR_SIZE) >= 0 && Replaced(v, w, SectorOf(g, ch, p / SECTOR_SIZE), Chunks(x, n))
    requires i / SECTOR_SIZE < g.csize * |ch|
    ensures ByteAt(g, w, ch, i) == if p <= i < p + |x| then x[i - p] else ByteAt(g, v, ch, i)
  {
    hide ClusterList, Geometry.Ok, SectorOf;
    var q, r := p / SECTOR_SIZE, i / SECTOR_SIZE;
    SectorInCluster(g, ch, r);
    SectorsOfRun(g, ch, q, n, r);
    if p <= i {
      ChunkByte(i, p, n);
    } else {
      assert r < q by { BelowChunk(i, p); }
    }
  }

  lemma BelowChunk(i: nat, p: nat)
    requires p % SECTOR_SIZE == 0 && i < p
    ensures i / SECTOR_SIZE < p / SECTOR_SIZE
  {
  }

  /** Changing part of one sector, of which the rest is current or behind the end. */
  lemma PartWritten(g: Geometry, v: seq<Sector>, ch: seq<nat>, size: nat, p: nat, x: seq<byte>, b: Sector)
    requires g.Ok() && |v| == g.total && ClusterList(g, ch) && Holds(g, ch, size)
    requires p / SECTOR_SIZE < g.csize * |ch| && p % SECTOR_SIZE + |x| <= SECTOR_SIZE && 0 < |x|
    requires 0 <= SectorOf(g, ch, p / SECTOR_SIZE) < |v|
    requires b == v[SectorOf(g, ch, p / SECTOR_SIZE)] || (p % SECTOR_SIZE == 0 && size <= p)
    ensures var w := v[SectorOf(g, ch, p / SECTOR_SIZE) := Splice(b, p % SECTOR_SIZE, x)];
            Holds(g, ch, p + |x|) && Wrote(g, v, w, ch, size, p, x)
  {
    var q := p / SECTOR_SIZE;
    var w := v[SectorOf(g, ch, q) := Splice(b, p % SECTOR_SIZE, x)];
    MulLe(SECTOR_SIZE, q + 1, g.csize * |ch|);
    forall i: nat | (i < size || i < p + |x|) && i / SECTOR_SIZE < g.csize * |ch|
      ensures ByteAt(g, w, ch, i) == if p <= i < p + |x| then x[i - p] else ByteAt(g, v, ch, i)
    {
      PartByte(g, v, ch, size, p, x, b, i);
    }
  }

  lemma PartByte(g: Geometry, v: seq<Sector>, ch: seq<nat>, size: nat, p: nat, x: seq<byte>, b: Sector, i: nat)
    requires g.Ok() && |v| == g.total && ClusterList(g, ch)
    requires p / SECTOR_SIZE < g.csize * |ch| && p % SECTOR_SIZE + |x| <= SECTOR_SIZE && 0 < |x|
    requires 0 <= SectorOf(g, ch, p / SECTOR_SIZE) < |v|
    requires b == v[SectorOf(g, ch, p / SECTOR_SIZE)] || (p % SECTOR_SIZE == 0 && size <= p)
    requires (i < size || i < p + |x|) && i / SECTOR_SIZE < g.csize * |ch|
    ensures var w := v[SectorOf(g, ch, p / SECTOR_SIZE) := Splice(b, p % SECTOR_SIZE, x)];
            ByteAt(g, w, ch, i) == if p <= i < p + |x| then x[i - p] else ByteAt(g, v, ch, i)
  {
    hide ClusterList, Geometry.Ok, SectorOf;
    var q, r := p / SECTOR_SIZE, i / SECTOR_SIZE;
    SectorInCluster(g, ch, r);
    if r == q {
      SameSectorByte(p, i);
    } else {
      if SectorOf(g, ch, r) == SectorOf(g, ch, q) {
        SectorsDistinct(g, ch, q, r);
      }
      OtherSectorByte(p, i, |x|);
    }
  }

  lemma SameSectorByte(p: nat, i: nat)
    requires i / SECTOR_SIZE == p / SECTOR_SIZE
    ensures i - p == i % SECTOR_SIZE - p % SECTOR_SIZE
    ensures p % SECTOR_SIZE == 0 ==> p <= i
  {
  }

  lemma OtherSectorByte(p: nat, i: nat, n: nat)
    requires i / SECTOR_SIZE != p / SECTOR_SIZE && p % SECTOR_SIZE + n <= SECTOR_SIZE
    ensures !(p <= i < p + n)
  {
  }

  ghost predicate InList(g: Geometry, ch: seq<nat>, s: int) {
    exists i :: 0 <= i < |ch| && g.InCluster(ch[i], s)
  }

  /** On exFAT the links of other clusters stay. (On FAT12/16/32 the cluster lists say so.) */
  ghost predicate LinksElsewhere(g: Geometry, ch: seq<nat>, v: seq<Sector>, w: seq<Sector>) {
    g.fsType == EXFAT && g.Ok() && |v| == |w| == g.total ==>
      var f, f' := Links(EXFAT, FatBytes(g, v), g.nFatent), Links(EXFAT, FatBytes(g, w), g.nFatent);
      forall c :: g.IsCluster(c) && c !in ch ==> f'[c] == f[c]
  }

  /** Only allocation tables changed, and on exFAT only links of the list. */
  ghost predicate TablesOnly(g: Geometry, ch: seq<nat>, v: seq<Sector>, w: seq<Sector>) {
    SameOutsideTables(g, v, w) && LinksElsewhere(g, ch, v, w)
  }

  /** Equal contents outside the allocation tables and the clusters of a list, and, on exFAT,
      equal links outside that list. */
  ghost predicate SameElsewhere(g: Geometry, ch: seq<nat>, v: seq<Sector>, w: seq<Sector>) {
    && |v| == |w| && (forall s :: 0 <= s < |v| && !g.InTables(s) && !InList(g, ch, s) ==> w[s] == v[s])
    && LinksElsewhere(g, ch, v, w)
  }

  lemma SameElsewhereTwice(g: Geometry, ch: seq<nat>, u: seq<Sector>, v: seq<Sector>, w: seq<Sector>)
    requires SameElsewhere(g, ch, u, v) && SameElsewhere(g, ch, v, w)
    ensures SameElsewhere(g, ch, u, w)
  {
  }

  lemma SameElsewhereMore(g: Geometry, ch: seq<nat>, ch': seq<nat>, v: seq<Sector>, w: seq<Sector>)
    requires SameElsewhere(g, ch, v, w) && ch <= ch'
    ensures SameElsewhere(g, ch', v, w)
  {
    forall s | InList(g, ch, s) ensures InList(g, ch', s) {
      var i :| 0 <= i < |ch| && g.InCluster(ch[i], s);
      assert ch'[i] == ch[i];
    }
  }

  // Clusters outside the metadata are never windowed, and never part of a table.
  lemma DataSector(g: Geometry, sys: set<nat>, c: nat, s: int)
    requires g.Ok() && g.IsCluster(c) && c !in sys && g.InCluster(c, s)
    ensures !g.Meta(sys, s) && g.database <= s < g.DataEnd() <= g.total && !g.InFat1(s) && !g.InFat2(s)
  {
    ClusterBounds(g, c);
    FatInside(g);
  }

  // Cluster index of byte i of a file.
  function ClusterIndex(g: Geometry, i: nat): nat
    requires g.csize > 0
  {
    i / SECTOR_SIZE / g.csize
  }

  /** On a cluster boundary the byte before is in the cluster before; anywhere else it is
      in the same cluster. */
  lemma IndexBefore(g: Geometry, p: nat)
    requires g.csize > 0 && p > 0
    ensures p % SECTOR_SIZE == 0 && p / SECTOR_SIZE % g.csize == 0 ==>
              ClusterIndex(g, p) == ClusterIndex(g, p - 1) + 1 && p == SECTOR_SIZE * (g.csize * ClusterIndex(g, p))
    ensures p % SECTOR_SIZE != 0 || p / SECTOR_SIZE % g.csize != 0 ==> ClusterIndex(g, p) == ClusterIndex(g, p - 1)
  {
    BlockEnd(p, SECTOR_SIZE);
    if p % SECTOR_SIZE == 0 {
      BlockEnd(p / SECTOR_SIZE, g.csize);
    }
  }

  lemma SectorOfPrefix(g: Geometry, ch: seq<nat>, ch': seq<nat>, q: nat)
    requires g.csize > 0 && q < g.csize * |ch| && ch <= ch'
    ensures q < g.csize * |ch'| && SectorOf(g, ch, q) == SectorOf(g, ch', q)
  {
    MulLe(g.csize, |ch|, |ch'|);
    BlockIndex(q, g.csize, |ch|);
  }

  lemma HoldsPrefix(g: Geometry, ch: seq<nat>, ch': seq<nat>, size: nat)
    requires ch <= ch' && Holds(g, ch, size)
    ensures Holds(g, ch', size)
  {
    MulLe(g.csize, |ch|, |ch'|);
  }

  /** Contents only depend on the file's own sectors, and not on clusters behind them. */
  lemma ContentKept(g: Geometry, v: seq<Sector>, w: seq<Sector>, ch: seq<nat>, ch': seq<nat>, size: nat)
    requires g.Ok() && |v| == |w| == g.total && ClusterList(g, ch) && ClusterList(g, ch') && ch <= ch' && Holds(g, ch, size)
    requires forall q: nat :: q < g.csize * |ch| ==> 0 <= SectorOf(g, ch, q) < |v| && w[SectorOf(g, ch, q)] == v[SectorOf(g, ch, q)]
    ensures Holds(g, ch', size) && Content(g, w, ch', size) == Content(g, v, ch, size)
  {
    hide ClusterList, Geometry.Ok, SectorOf;
    HoldsPrefix(g, ch, ch', size);
    forall i | 0 <= i < size ensures Content(g, w, ch', size)[i] == Content(g, v, ch, size)[i] {
      HeldSector(g, ch, size, i);
      SectorOfPrefix(g, ch, ch', i / SECTOR_SIZE);
    }
  }

  lemma OverwriteTwice(s: seq<byte>, p: nat, x: seq<byte>, y: seq<byte>)
    requires p <= |s|
    ensures Overwrite(Overwrite(s, p, x), p + |x|, y) == Overwrite(s, p, x + y)
  {
  }

  /** Sectors as one byte string. */
  function Joined(d: seq<Sector>): (x: seq<byte>)
    ensures |x| == |d| * SECTOR_SIZE
  {
    seq(|d| * SECTOR_SIZE, i requires 0 <= i < |d| * SECTOR_SIZE => d[i / SECTOR_SIZE][i % SECTOR_SIZE])
  }

  /** Reading whole sectors of one cluster reads their bytes of the file. */
  lemma RunRead(g: Geometry, v: seq<Sector>, ch: seq<nat>, size: nat, p: nat, d: seq<Sector>)
    requires g.Ok() && |v| == g.total && ClusterList(g, ch) && Holds(g, ch, size)
    requires p % SECTOR_SIZE == 0 && 0 < |d| && p + |d| * SECTOR_SIZE <= size
    requires p / SECTOR_SIZE < g.csize * |ch| && p / SECTOR_SIZE % g.csize + |d| <= g.csize
    requires 0 <= SectorOf(g, ch, p / SECTOR_SIZE) && SectorOf(g, ch, p / SECTOR_SIZE) + |d| <= |v|
    requires forall k :: 0 <= k < |d| ==> d[k] == v[SectorOf(g, ch, p / SECTOR_SIZE) + k]
    ensures Joined(d) == Content(g, v, ch, size)[p..p + |d| * SECTOR_SIZE]
  {
    hide ClusterList, Geometry.Ok, SectorOf;
    forall i | 0 <= i < |d| * SECTOR_SIZE ensures Joined(d)[i] == Content(g, v, ch, size)[p + i] {
      HeldSector(g, ch, size, p + i);
      ChunkOffset(p, i);
      ChunkByte(p + i, p, |d|);
      SectorsFollow(g, ch, p / SECTOR_SIZE, i / SECTOR_SIZE);
    }
  }

  lemma ChunkOffset(p: nat, i: nat)
    requires p % SECTOR_SIZE == 0
    ensures (p + i) / SECTOR_SIZE == p / SECTOR_SIZE + i / SECTOR_SIZE && (p + i) % SECTOR_SIZE == i % SECTOR_SIZE
  {
  }

  /** Bytes of one sector are bytes of the file. */
  lemma PartRead(g: Geometry, v: seq<Sector>, ch: seq<nat>, size: nat, p: nat, n: nat)
    requires g.Ok() && |v| == g.total && ClusterList(g, ch) && Holds(g, ch, size)
    requires p % SECTOR_SIZE + n <= SECTOR_SIZE && 0 < n && p + n <= size
    ensures p / SECTOR_SIZE < g.csize * |ch| && 0 <= SectorOf(g, ch, p / SECTOR_SIZE) < |v|
    ensures v[SectorOf(g, ch, p / SECTOR_SIZE)][p % SECTOR_SIZE..p % SECTOR_SIZE + n] == Content(g, v, ch, size)[p..p + n]
  {
    HeldSector(g, ch, size, p);
    SectorInCluster(g, ch, p / SECTOR_SIZE);
    hide ClusterList, Geometry.Ok, SectorOf;
    var x := v[SectorOf(g, ch, p / SECTOR_SIZE)][p % SECTOR_SIZE..p % SECTOR_SIZE + n];
    var y := Content(g, v, ch, size)[p..p + n];
    forall i | 0 <= i < n ensures x[i] == y[i] {
      PartOffset(p, i);
    }
    assert x == y;
  }

  lemma PartOffset(p: nat, i: nat)
    requires p % SECTOR_SIZE + i < SECTOR_SIZE
    ensures (p + i) / SECTOR_SIZE == p / SECTOR_SIZE && (p + i) % SECTOR_SIZE == p % SECTOR_SIZE + i
  {
  }
}
