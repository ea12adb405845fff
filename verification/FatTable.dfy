/** The file allocation table as a byte string and as a map from clusters to
    links: 12-, 16-, 28- and 32-bit packed entries. */
module FatTable {
  import opened Arith
  import opened Bytes
  import opened Layout

  /** The bytes of the first FAT. */
  ghost function FatBytes(g: Geometry, v: seq<Sector>): (b: seq<byte>)
    requires g.Ok() && |v| == g.total
    ensures |b| == g.fsize * SECTOR_SIZE
  {
    FatInside(g);
    Region(v, g.fatbase, g.fsize)
  }

  /** The bytes of the allocation bitmap of an exFAT volume. */
  ghost function BitmapBytes(g: Geometry, v: seq<Sector>): (b: seq<byte>)
    requires g.Ok() && g.fsType == EXFAT && |v| == g.total
    ensures |b| == g.BitmapSectors() * SECTOR_SIZE
  {
    Region(v, g.bitbase, g.BitmapSectors())
  }

  lemma SameBitmap(g: Geometry, a: seq<Sector>, b: seq<Sector>)
    requires g.Ok() && g.fsType == EXFAT && |a| == |b| == g.total && SameOutsideFats(g, a, b)
    ensures BitmapBytes(g, a) == BitmapBytes(g, b)
  {
    FatInside(g);
    SameRegion(a, b, g.bitbase, g.BitmapSectors());
  }

  /** The allocation bitmap: bit i is set when cluster i + 2 is in use. */
  ghost function Bits(g: Geometry, b: seq<byte>): (r: seq<bool>)
    requires g.Ok() && |b| == g.BitmapSectors() * SECTOR_SIZE
    ensures |r| == g.nFatent - 2
  {
    seq(g.nFatent - 2, i requires 0 <= i < g.nFatent - 2 => BitOf(b[i / 8], i % 8))
  }

  /** Byte offset of the entry of cluster c. */
  function Offset(t: FsType, c: nat): nat {
    match t
    case FAT12 => c + c / 2
    case FAT16 => c * 2
    case FAT32 => c * 4
    case EXFAT => c * 4
  }

  function Width(t: FsType): nat {
    if t == FAT12 || t == FAT16 then 2 else 4
  }

  // The entries of clusters below n lie within the bytes that n entries need.
  lemma EntryInside(t: FsType, c: nat, n: nat)
    requires c < n
    ensures Offset(t, c) + Width(t) <= FatBytesNeeded(t, n)
  {
    if t == FAT12 {
      EntryInside12(c, n);
    }
  }

  lemma EntryInside12(c: nat, n: nat)
    requires c < n
    ensures c + c / 2 + 2 <= n * 3 / 2 + n % 2
  {
    var k := n - 1;
    assert n * 3 / 2 + n % 2 == k + k / 2 + 2;
  }

  // A 12-bit entry from the two bytes it shares with its neighbour.
  function Entry12(lo: byte, hi: byte, odd: bool): (r: dword)
    ensures r < 0x1000
  {
    var w := lo as int + 0x100 * hi as int;
    if odd then w / 0x10 else w % 0x1000
  }

  /** The stored entry of cluster c. */
  function Raw(t: FsType, b: seq<byte>, c: nat): dword
    requires Offset(t, c) + Width(t) <= |b|
  {
    var o := Offset(t, c);
    match t
    case FAT12 => Entry12(b[o], b[o + 1], c % 2 == 1)
    case FAT16 => LdWord(b, o)
    case FAT32 => LdDword(b, o)
    case EXFAT => LdDword(b, o)
  }

  /** What the FAT keeps of a value: 12, 16, 28 or 31 significant bits. */
  function Masked(t: FsType, v: dword): (r: dword)
    ensures r < 0x8000_0000
  {
    match t
    case FAT12 => v % 0x1000
    case FAT16 => v % 0x1_0000
    case FAT32 => v % 0x1000_0000
    case EXFAT => v % 0x8000_0000
  }

  /** The FAT as a sequence of links. */
  ghost function Links(t: FsType, b: seq<byte>, n: nat): (f: seq<dword>)
    requires FatBytesNeeded(t, n) <= |b|
    ensures |f| == n && forall c :: 0 <= c < n ==> f[c] < 0x8000_0000
  {
    seq(n, c requires 0 <= c < n => EntryInside(t, c, n); Masked(t, Raw(t, b, c)))
  }

  // The bits of a FAT12 entry kept from its neighbour, added to the new ones.
  function Nibbles(hi: int, lo: int): (r: byte)
    requires 0 <= hi < 0x10 && 0 <= lo < 0x10
    ensures r / 0x10 == hi && r % 0x10 == lo
  {
    hi * 0x10 + lo
  }

  function Stored12(b: seq<byte>, o: nat, odd: bool, v: dword): (r: seq<byte>)
    requires o + 2 <= |b|
    ensures |r| == |b|
  {
    if odd then b[o := Nibbles(v % 0x10, b[o] % 0x10)][o + 1 := Lo(v / 0x10)]
    else b[o := Lo(v)][o + 1 := Nibbles(b[o + 1] / 0x10, v / 0x100 % 0x10)]
  }

  /** The bytes after storing v in the entry of cluster c: the neighbour's nibble
      of a 12-bit entry and the top four bits of a 28-bit entry stay. */
  function Stored(t: FsType, b: seq<byte>, c: nat, v: dword): (r: seq<byte>)
    requires Offset(t, c) + Width(t) <= |b|
    ensures |r| == |b|
  {
    var o := Offset(t, c);
    match t
    case FAT12 => Stored12(b, o, c % 2 == 1, v)
    case FAT16 => StWord(b, o, v)
    case FAT32 => StDword(b, o, Merged32(v, Raw(t, b, c)))
    case EXFAT => StDword(b, o, v)
  }

  function Merged32(v: dword, old32: dword): (r: dword)
    ensures r % 0x1000_0000 == v % 0x1000_0000 && r / 0x1000_0000 == old32 / 0x1000_0000
  {
    v % 0x1000_0000 + old32 / 0x1000_0000 * 0x1000_0000
  }

  lemma Word12(lo: byte, hi: byte)
    ensures (lo + 0x100 * hi as int) / 0x10 == lo / 0x10 + 0x10 * hi as int
    ensures (lo + 0x100 * hi as int) % 0x1000 == lo + 0x100 * (hi % 0x10) as int
  {
    var w := lo as int + 0x100 * hi as int;
    DivAdd(lo, 0x10, 0x10 * hi as int);
    DivAdd(lo, 0x100, hi);
    ModDigits(w, 0x100, 0x10);
  }

  lemma Split12(v: dword)
    ensures v % 0x1000 == v % 0x10 + 0x10 * Lo(v / 0x10) as int
    ensures v % 0x1000 == Lo(v) as int + 0x100 * (v / 0x100 % 0x10)
  {
    ModDigits(v, 0x10, 0x100);
    ModDigits(v, 0x100, 0x10);
  }

  lemma StoredEntry12(b: seq<byte>, o: nat, odd: bool, v: dword)
    requires o + 2 <= |b|
    ensures var r := Stored12(b, o, odd, v); Entry12(r[o], r[o + 1], odd) == v % 0x1000
  {
    var r := Stored12(b, o, odd, v);
    Word12(r[o], r[o + 1]);
    Split12(v);
  }

  lemma StoredEntry(t: FsType, b: seq<byte>, c: nat, v: dword)
    requires Offset(t, c) + Width(t) <= |b|
    ensures Masked(t, Raw(t, Stored(t, b, c, v), c)) == Masked(t, v)
    ensures t == FAT32 ==> Raw(t, Stored(t, b, c, v), c) / 0x1000_0000 == Raw(t, b, c) / 0x1000_0000
  {
    hide LdWord, LdDword, StWord, StDword, Lo, Merged32, Entry12, Stored12;
    var o := Offset(t, c);
    if t == FAT12 {
      StoredEntry12(b, o, c % 2 == 1, v);
    } else if t == FAT16 {
      StLdWord(b, o, v);
    } else if t == FAT32 {
      StLdDword(b, o, Merged32(v, Raw(t, b, c)));
    } else {
      StLdDword(b, o, v);
    }
  }

  lemma Offsets12(c: nat, d: nat)
    requires c < d
    ensures c + c / 2 + 1 <= d + d / 2
    ensures c + c / 2 + 1 == d + d / 2 ==> d == c + 1 && c % 2 == 0
  {
  }

  // A 12-bit entry only depends on one byte and the facing half of the other.
  lemma Half12(lo: byte, hi: byte, lo': byte, hi': byte, odd: bool)
    requires if odd then lo / 0x10 == lo' / 0x10 && hi == hi' else lo == lo' && hi % 0x10 == hi' % 0x10
    ensures Entry12(lo, hi, odd) == Entry12(lo', hi', odd)
  {
    Word12(lo, hi);
    Word12(lo', hi');
  }

  lemma StoredOthers12(b: seq<byte>, c: nat, v: dword, d: nat)
    requires c + c / 2 + 2 <= |b| && d + d / 2 + 2 <= |b| && c != d
    ensures Raw(FAT12, Stored(FAT12, b, c, v), d) == Raw(FAT12, b, d)
  {
    if c < d {
      Offsets12(c, d);
    } else {
      Offsets12(d, c);
    }
    var r, o := Stored12(b, c + c / 2, c % 2 == 1, v), d + d / 2;
    Half12(b[o], b[o + 1], r[o], r[o + 1], d % 2 == 1);
  }

  lemma StoredOthers(t: FsType, b: seq<byte>, c: nat, v: dword, d: nat)
    requires Offset(t, c) + Width(t) <= |b| && Offset(t, d) + Width(t) <= |b| && c != d
    ensures Raw(t, Stored(t, b, c, v), d) == Raw(t, b, d)
  {
    if t == FAT12 {
      StoredOthers12(b, c, v, d);
    }
  }

  /** Storing a link changes that link and no other. */
  lemma StoredLinks(t: FsType, b: seq<byte>, c: nat, v: dword, n: nat)
    requires FatBytesNeeded(t, n) <= |b| && c < n
    ensures Offset(t, c) + Width(t) <= |b|
    ensures Links(t, Stored(t, b, c, v), n) == Links(t, b, n)[c := Masked(t, v)]
  {
    EntryInside(t, c, n);
    StoredEntry(t, b, c, v);
    forall d: nat | d < n && d != c
      ensures Offset(t, d) + Width(t) <= |b| && Raw(t, Stored(t, b, c, v), d) == Raw(t, b, d)
    {
      EntryInside(t, d, n);
      StoredOthers(t, b, c, v, d);
    }
  }

  /** Even half of a FAT12 store leaves the other links alone. */
  lemma FirstByteStored12(b: seq<byte>, c: nat, v: dword, n: nat, d: nat)
    requires FatBytesNeeded(FAT12, n) <= |b| && c < n && d < n && c != d
    ensures c + c / 2 + 2 <= |b|
    ensures var o := c + c / 2; Links(FAT12, b[o := Stored(FAT12, b, c, v)[o]], n)[d] == Links(FAT12, b, n)[d]
  {
    EntryInside(FAT12, c, n);
    EntryInside(FAT12, d, n);
    if c < d {
      Offsets12(c, d);
    } else {
      Offsets12(d, c);
    }
    var r, o := b[c + c / 2 := Stored(FAT12, b, c, v)[c + c / 2]], d + d / 2;
    Half12(b[o], b[o + 1], r[o], r[o + 1], d % 2 == 1);
  }
}
