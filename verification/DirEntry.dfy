/** Short-name directory entries: the fields that tie a name to its cluster list. */
module DirEntry {
  import opened Bytes
  import opened Layout

  const SZDIRE := 32
  const DIR_Attr := 11
  const DIR_LstAccDate := 18
  const DIR_FstClusHI := 20
  const DIR_ModTime := 22
  const DIR_FstClusLO := 26
  const DIR_FileSize := 28
  const AM_ARC := 0x20

  type Entry = e: seq<byte> | |e| == 32 witness seq(32, _ => 0)

  /** ld_clust */
  function LdClust(t: FsType, e: Entry): dword {
    if t == FAT32 then LdWord(e, DIR_FstClusLO) as int + 0x1_0000 * LdWord(e, DIR_FstClusHI) as int
    else LdWord(e, DIR_FstClusLO)
  }

  /** st_clust */
  function StClust(t: FsType, e: Entry, cl: dword): Entry {
    var r := StWord(e, DIR_FstClusLO, cl);
    if t == FAT32 then StWord(r, DIR_FstClusHI, cl / 0x1_0000) else r
  }

  // attr | AM_ARC
  function SetArc(attr: byte): (r: byte) {
    if attr / AM_ARC % 2 == 1 then attr else attr + AM_ARC
  }

  /** What f_sync makes of the directory entry of a file. */
  function Synced(t: FsType, e: Entry, sclust: dword, size: nat, tm: dword): Entry {
    var e1 := StClust(t, e[DIR_Attr := SetArc(e[DIR_Attr])], sclust);
    StWord(StDword(StDword(e1, DIR_FileSize, size), DIR_ModTime, tm), DIR_LstAccDate, 0)
  }

  lemma StClustLoads(t: FsType, e: Entry, cl: dword)
    requires t == FAT32 || cl < 0x1_0000
    ensures LdClust(t, StClust(t, e, cl)) == cl
  {
    var r := StWord(e, DIR_FstClusLO, cl);
    StLdWord(e, DIR_FstClusLO, cl);
    if t == FAT32 {
      StLdWord(r, DIR_FstClusHI, cl / 0x1_0000);
      SameWord(r, DIR_FstClusLO, StClust(t, e, cl), DIR_FstClusLO);
    }
  }

  /** f_open reads back from the entry what f_sync stored, and nothing else of it changes but
      the archive bit and the dates. */
  lemma SyncedLoads(t: FsType, e: Entry, sclust: dword, size: dword, tm: dword)
    requires t == FAT32 || sclust < 0x1_0000
    ensures var r := Synced(t, e, sclust, size, tm);
            && LdClust(t, r) == sclust && LdDword(r, DIR_FileSize) == size && r[..DIR_Attr] == e[..DIR_Attr]
            && r[DIR_Attr] / AM_ARC % 2 == 1 && r[DIR_Attr + 1..DIR_LstAccDate] == e[DIR_Attr + 1..DIR_LstAccDate]
  {
    var e0 := e[DIR_Attr := SetArc(e[DIR_Attr])];
    var e1 := StClust(t, e0, sclust);
    var e2 := StDword(e1, DIR_FileSize, size);
    var r := Synced(t, e, sclust, size, tm);
    StClustLoads(t, e0, sclust);
    StLdDword(e1, DIR_FileSize, size);
    assert r[DIR_FstClusLO..DIR_FstClusLO + 2] == e1[DIR_FstClusLO..DIR_FstClusLO + 2];
    assert r[DIR_FstClusHI..DIR_FstClusHI + 2] == e1[DIR_FstClusHI..DIR_FstClusHI + 2];
    SameWord(r, DIR_FstClusLO, e1, DIR_FstClusLO);
    SameWord(r, DIR_FstClusHI, e1, DIR_FstClusHI);
    assert r[DIR_FileSize..DIR_FileSize + 4] == e2[DIR_FileSize..DIR_FileSize + 4];
    SameDword(r, DIR_FileSize, e2, DIR_FileSize);
  }
}
