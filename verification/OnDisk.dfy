/** Where the numbers stand on the drive, byte by byte, as the FAT and exFAT specifications have them. */
module OnDisk {
  import opened Arith
  import opened Bytes
  import opened DirEntry
  import opened FatTable
  import opened Info
  import opened Layout
  import opened Lfn

  /** The number that bytes stand for, the lowest first. */
  function Little(b: seq<byte>): nat {
    if b == [] then 0 else b[0] + 0x100 * Little(b[1..])
  }

  lemma LittleWord(s: seq<byte>, i: nat)
    requires i + 2 <= |s|
    ensures Little(s[i..i + 2]) == LdWord(s, i)
  {
    var b := s[i..i + 2];
    assert b[1..] == [b[1]] && b[1..][1..] == [];
    assert Little(b[1..]) == b[1];
  }

  lemma LittleDword(s: seq<byte>, i: nat)
    requires i + 4 <= |s|
    ensures Little(s[i..i + 4]) == LdDword(s, i)
  {
    var b := s[i..i + 4];
    assert b[1..][1..] == b[2..] && b[2..] == s[i + 2..][..2] == s[i + 2..i + 4];
    LittleWord(s, i + 2);
  }

  /** The FSInfo sector: "RRaA" at byte 0, "rrAa" at 484, the free count at 488, the last allocated cluster
      at 492, 0x55 0xAA at 510, zeros elsewhere. */
  lemma InfoBytes(free: dword, last: dword)
    ensures var s := FsInfo(free, last);
            && s[..4] == [0x52, 0x52, 0x61, 0x41] && s[484..488] == [0x72, 0x72, 0x41, 0x61] && s[510..] == [0x55, 0xAA]
            && Little(s[488..492]) == free && Little(s[492..496]) == last
            && forall i :: 4 <= i < 484 || 496 <= i < 510 ==> s[i] == 0
  {
    var s := FsInfo(free, last);
    FsInfoLoads(free, last);
    LittleDword(s, 488);
    LittleDword(s, 492);
    Signature(LEAD_SIG, 0x52, 0x52, 0x61, 0x41);
    Signature(STRUC_SIG, 0x72, 0x72, 0x41, 0x61);
  }

  lemma Signature(v: dword, a: byte, b: byte, c: byte, d: byte)
    requires v == a + 0x100 * b + 0x1_0000 * c + 0x100_0000 * d
    ensures Lo(v) == a && Lo(v / 0x100) == b && Lo(v / 0x1_0000) == c && Lo(v / 0x100_0000) == d
  {
  }

  /** The entry of a synchronized file: the archive bit in byte 11, the access date at 18, the high half of the
      first cluster at 20 on FAT32, the time at 22, the low half at 26, the size at 28, the rest as before. */
  lemma SyncedBytes(t: FsType, e: Entry, sclust: dword, size: dword, tm: dword)
    ensures var r := Synced(t, e, sclust, size, tm);
            && r[11] / 0x20 % 2 == 1 && r[11] % 0x20 == e[11] % 0x20 && r[11] / 0x40 == e[11] / 0x40
            && r[..11] == e[..11] && r[12..18] == e[12..18]
            && Little(r[18..20]) == 0 && Little(r[22..26]) == tm && Little(r[28..32]) == size
            && Little(r[26..28]) == sclust % 0x1_0000
            && (if t == FAT32 then Little(r[20..22]) == sclust / 0x1_0000 else r[20..22] == e[20..22])
  {
    hide StClust, LdWord, LdDword, Little;
    var e0 := e[DIR_Attr := SetArc(e[DIR_Attr])];
    var e2 := StClust(t, e0, sclust);
    ClusterBytes(t, e0, sclust);
    ArchiveBit(e[DIR_Attr]);
    SizeBytes(e2, size, tm);
    var r := Synced(t, e, sclust, size, tm);
    assert r[..11] == e2[..11] == e0[..11] == e[..11] && r[12..18] == e2[12..18] == e0[12..18] == e[12..18];
    assert r[20..22] == e2[20..22] && r[26..28] == e2[26..28] && e0[20..22] == e[20..22];
  }

  lemma ArchiveBit(a: byte)
    ensures var r := SetArc(a); r / 0x20 % 2 == 1 && r % 0x20 == a % 0x20 && r / 0x40 == a / 0x40
  {
  }

  lemma ClusterBytes(t: FsType, e: Entry, sclust: dword)
    ensures var r := StClust(t, e, sclust);
            && r[..20] == e[..20] && r[22..26] == e[22..26] && r[28..] == e[28..]
            && Little(r[26..28]) == sclust % 0x1_0000
            && (if t == FAT32 then Little(r[20..22]) == sclust / 0x1_0000 else r[20..22] == e[20..22])
  {
    hide Little;
    var e1 := StWord(e, DIR_FstClusLO, sclust);
    var r := StClust(t, e, sclust);
    StLdWord(e, 26, sclust);
    LittleWord(r, 20);
    LittleWord(r, 26);
    if t == FAT32 {
      StLdWord(e1, 20, sclust / 0x1_0000);
    }
  }

  lemma SizeBytes(e: Entry, size: dword, tm: dword)
    ensures var r := StWord(StDword(StDword(e, 28, size), 22, tm), 18, 0);
            && r[..18] == e[..18] && r[20..22] == e[20..22] && r[26..28] == e[26..28]
            && Little(r[18..20]) == 0 && Little(r[22..26]) == tm && Little(r[28..32]) == size
  {
    hide Little;
    var e3 := StDword(e, 28, size);
    var e4 := StDword(e3, 22, tm);
    var r := StWord(e4, 18, 0);
    LittleWord(r, 18);
    LittleDword(r, 22);
    LittleDword(r, 28);
    StLdDword(e, 28, size);
    StLdDword(e3, 22, tm);
    StLdWord(e4, 18, 0);
    assert r[22..26] == e4[22..26] && r[28..32] == e3[28..32];
    SameDword(r, 22, e4, 22);
    SameDword(r, 28, e3, 28);
  }

  /** Entry number k of a long name: its number in byte 0, with 0x40 for the last one, 0x0F in byte 11, zeros
      at 12, 26 and 27, the checksum at 13, and five, six and two characters from 1, 14 and 28 on. */
  lemma LongBytes(e: Entry, name: seq<word>, k: nat, sum: byte)
    requires IsPart(e, name, k, sum)
    ensures e[0] == (if |name| <= k * 13 then k + 0x40 else k) && e[11] == 0x0F && e[12] == 0 && e[13] == sum && e[26] == e[27] == 0
    ensures forall i :: 0 <= i < 5 ==> LdWord(e, 1 + 2 * i) == PartChar(name, (k - 1) * 13 + i)
    ensures forall i :: 0 <= i < 6 ==> LdWord(e, 14 + 2 * i) == PartChar(name, (k - 1) * 13 + 5 + i)
    ensures forall i :: 0 <= i < 2 ==> LdWord(e, 28 + 2 * i) == PartChar(name, (k - 1) * 13 + 11 + i)
  {
    hide PartChar;
    forall i | 0 <= i < 5 ensures LdWord(e, 1 + 2 * i) == PartChar(name, (k - 1) * 13 + i) {
      assert CharAt(e, i) == LdWord(e, 1 + 2 * i);
    }
    forall i | 0 <= i < 6 ensures LdWord(e, 14 + 2 * i) == PartChar(name, (k - 1) * 13 + 5 + i) {
      assert CharAt(e, 5 + i) == LdWord(e, 14 + 2 * i);
    }
    forall i | 0 <= i < 2 ensures LdWord(e, 28 + 2 * i) == PartChar(name, (k - 1) * 13 + 11 + i) {
      assert CharAt(e, 11 + i) == LdWord(e, 28 + 2 * i);
    }
  }

  /** One step of the checksum of a short name: the bits of the sum move down by one place, the lowest comes
      in at the top, and the byte is added. */
  lemma ChecksumBits(s: seq<byte>, c: byte, j: nat)
    requires j < 8
    ensures Sum([]) == 0 && Sum(s + [c]) == (RotatedRight(Sum(s), 0) + c) % 0x100
    ensures BitOf(RotatedRight(Sum(s), 0), j) <==> BitOf(Sum(s), if j < 7 then j + 1 else 0)
  {
    hide RotatedRight, BitOf;
    assert (s + [c])[..|s|] == s;
    RotatedAdd(Sum(s), c);
    RotatedBits(Sum(s), j);
  }

  lemma RotatedAdd(x: byte, c: byte)
    ensures RotatedRight(x, c) == (RotatedRight(x, 0) + c) % 0x100
  {
    var y := x / 2 + x % 2 * 0x80;
    TopPlace(x);
    RotatedIs(x, 0, y);
    RotatedIs(x, c, y);
    hide *;
    SmallMod(y, 0x100);
  }

  lemma RotatedIs(x: byte, c: byte, y: nat)
    requires y == x / 2 + x % 2 * 0x80
    ensures RotatedRight(x, c) == (y + c) % 0x100
  {
  }

  lemma TopPlace(x: byte)
    ensures x / 2 < 0x80 && x / 2 + x % 2 * 0x80 < 0x100
  {
  }

  lemma RotatedBits(x: byte, j: nat)
    requires j < 8
    ensures BitOf(RotatedRight(x, 0), j) <==> BitOf(x, if j < 7 then j + 1 else 0)
  {
    TopBit(x / 2, x % 2, 7, j);
  }

  // A bit on top of k lower ones.
  lemma {:induction false} TopBit(y: nat, top: nat, k: nat, j: nat)
    requires top < 2 && y < Pow2(k) && j <= k
    ensures BitOf(y + top * Pow2(k), j) <==> if j < k then BitOf(y, j) else top == 1
  {
    if k == 0 {
    } else {
      assert y + top * Pow2(k) == y + 2 * (top * Pow2(k - 1));
      if j > 0 {
        TopBit(y / 2, top, k - 1, j - 1);
      }
    }
  }

  /** Two FAT12 entries share three bytes: the even one has the first and the low half of the second. */
  function Packed(b: seq<byte>, c: nat): int
    requires c / 2 * 3 + c % 2 + 1 < |b|
  {
    var k := c / 2 * 3;
    if c % 2 == 0 then b[k] as int + 0x100 * (b[k + 1] as int % 0x10) else b[k + 1] as int / 0x10 + 0x10 * b[k + 2] as int
  }

  /** The entries of a FAT: two FAT12 entries in three bytes, the others in two or four bytes of their own, of
      which FAT32 uses 28 bits. */
  lemma EntryBytes(b: seq<byte>, n: nat, c: nat)
    requires c < n
    ensures FatBytesNeeded(FAT12, n) <= |b| ==> c / 2 * 3 + c % 2 + 1 < |b| && Links(FAT12, b, n)[c] == Packed(b, c)
    ensures FatBytesNeeded(FAT16, n) <= |b| ==> Links(FAT16, b, n)[c] == Little(b[c * 2..c * 2 + 2])
    ensures FatBytesNeeded(FAT32, n) <= |b| ==> Links(FAT32, b, n)[c] == Little(b[c * 4..c * 4 + 4]) % 0x1000_0000
    ensures FatBytesNeeded(EXFAT, n) <= |b| ==> Links(EXFAT, b, n)[c] == Little(b[c * 4..c * 4 + 4]) % 0x8000_0000
  {
    if FatBytesNeeded(FAT12, n) <= |b| {
      PackedBytes(b, n, c);
    }
    hide Little, LdWord, LdDword, Entry12, Packed;
    if FatBytesNeeded(FAT16, n) <= |b| {
      LittleWord(b, c * 2);
    }
    if FatBytesNeeded(FAT32, n) <= |b| {
      LittleDword(b, c * 4);
    }
  }

  lemma PackedBytes(b: seq<byte>, n: nat, c: nat)
    requires c < n && FatBytesNeeded(FAT12, n) <= |b|
    ensures c / 2 * 3 + c % 2 + 1 < |b| && Links(FAT12, b, n)[c] == Packed(b, c)
  {
    EntryInside(FAT12, c, n);
    hide Entry12, FatBytesNeeded;
    Halved(c);
    Nibbles(b[Offset(FAT12, c)], b[Offset(FAT12, c) + 1]);
  }

  lemma Halved(c: nat)
    ensures Offset(FAT12, c) == c / 2 * 3 + c % 2
  {
    assert c == c / 2 * 2 + c % 2;
  }

  lemma Nibbles(lo: byte, hi: byte)
    ensures Entry12(lo, hi, false) == lo as int + 0x100 * (hi as int % 0x10)
    ensures Entry12(lo, hi, true) == lo as int / 0x10 + 0x10 * hi as int
  {
    var w := lo as int + 0x100 * hi as int;
    DivUnique(w, 0x10, lo as int / 0x10 + 0x10 * hi as int, lo as int % 0x10);
    DivUnique(w, 0x1000, hi as int / 0x10, lo as int + 0x100 * (hi as int % 0x10));
  }
}
