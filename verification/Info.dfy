/** The FSInfo sector of a FAT32 volume: its layout, and what it says about the free clusters. */
module Info {
  import opened Bytes
  import opened Layout
  import opened Volume

  const BS_55AA := 510
  const FSI_LeadSig := 0
  const FSI_StrucSig := 484
  const FSI_Free_Count := 488
  const FSI_Nxt_Free := 492
  const LEAD_SIG := 0x41615252
  const STRUC_SIG := 0x61417272

  function Zeros(): Sector {
    seq(512, _ => 0)
  }

  /** The FSInfo sector that sync_fs writes. */
  function FsInfo(free: dword, last: dword): Sector {
    var a := StWord(Zeros(), BS_55AA, 0xAA55);
    var b := StDword(StDword(a, FSI_LeadSig, LEAD_SIG), FSI_StrucSig, STRUC_SIG);
    StDword(StDword(b, FSI_Free_Count, free), FSI_Nxt_Free, last)
  }

  /** mount_volume's test of an FSInfo sector. */
  predicate IsFsInfo(s: Sector) {
    LdWord(s, BS_55AA) == 0xAA55 && LdDword(s, FSI_LeadSig) == LEAD_SIG && LdDword(s, FSI_StrucSig) == STRUC_SIG
  }

  // Stores at other places leave a word alone.
  lemma StOthers(s: seq<byte>, i: nat, v: int, j: nat)
    requires i + 4 <= |s|
    ensures j + 4 <= |s| && (j + 4 <= i || i + 4 <= j) ==> LdDword(StDword(s, i, v), j) == LdDword(s, j)
    ensures j + 2 <= |s| && (j + 2 <= i || i + 4 <= j) ==> LdWord(StDword(s, i, v), j) == LdWord(s, j)
  {
  }

  /** Mounting accepts the FSInfo sector that sync_fs wrote and reads back its two numbers. */
  lemma FsInfoLoads(free: dword, last: dword)
    ensures var s := FsInfo(free, last); IsFsInfo(s) && LdDword(s, FSI_Free_Count) == free && LdDword(s, FSI_Nxt_Free) == last
  {
    hide StDword, StWord, LdDword, LdWord;
    var a := StWord(Zeros(), BS_55AA, 0xAA55);
    var b := StDword(a, FSI_LeadSig, LEAD_SIG);
    var c := StDword(b, FSI_StrucSig, STRUC_SIG);
    var d := StDword(c, FSI_Free_Count, free);
    StLdWord(Zeros(), BS_55AA, 0xAA55);
    StLdDword(a, FSI_LeadSig, LEAD_SIG);
    StLdDword(b, FSI_StrucSig, STRUC_SIG);
    StLdDword(c, FSI_Free_Count, free);
    StLdDword(d, FSI_Nxt_Free, last);
    StOthers(a, FSI_LeadSig, LEAD_SIG, BS_55AA);
    StOthers(b, FSI_StrucSig, STRUC_SIG, BS_55AA);
    StOthers(c, FSI_Free_Count, free, BS_55AA);
    StOthers(d, FSI_Nxt_Free, last, BS_55AA);
    StOthers(b, FSI_StrucSig, STRUC_SIG, FSI_LeadSig);
    StOthers(c, FSI_Free_Count, free, FSI_LeadSig);
    StOthers(d, FSI_Nxt_Free, last, FSI_LeadSig);
    StOthers(c, FSI_Free_Count, free, FSI_StrucSig);
    StOthers(d, FSI_Nxt_Free, last, FSI_StrucSig);
    StOthers(d, FSI_Nxt_Free, last, FSI_Free_Count);
  }

  // The FSInfo sector; only FAT32 has one.
  function InfoSector(g: Geometry): nat {
    if g.fsType == FAT32 then g.volbase + 1 else NO_SECTOR
  }

  // It lies in front of the FATs.
  ghost predicate FsInfoPlace(g: Geometry) {
    g.fsType == FAT32 ==> InfoSector(g) < g.fatbase
  }

  lemma InfoIsMeta(g: Geometry, sys: set<nat>)
    requires g.Ok() && FsInfoPlace(g) && g.fsType == FAT32
    ensures g.Meta(sys, InfoSector(g))
  {
    FatInside(g);
    forall c | g.IsCluster(c) ensures !g.InCluster(c, InfoSector(g)) {
      ClusterBounds(g, c);
    }
  }

  // The free count that mounting takes from a sector.
  function Told(s: Sector): dword {
    if IsFsInfo(s) then LdDword(s, FSI_Free_Count) else 0xFFFF_FFFF
  }

  /** While the FSInfo sector does not have to be written, the free count in it is no number of clusters,
      or the one that the volume remembers. */
  ghost predicate InfoOk(fs: FATFS)
    reads fs, fs.win
  {
    fs.g.fsType == FAT32 && FsInfoPlace(fs.g) && InfoSector(fs.g) < |fs.View()| && !fs.faulted && fs.fsiFlag == 0 ==>
      var t := Told(fs.View()[InfoSector(fs.g)]); t > fs.g.nFatent - 2 || t == fs.freeClst
  }

  /** The count and the flag are as they were, or the flag says now that the FSInfo sector has to be written. */
  predicate Noted(free0: dword, flag0: nat, free: dword, flag: nat) {
    (free == free0 && flag == flag0) || flag == flag0 - flag0 % 2 + 1
  }

  /** An operation that does not touch the FSInfo sector, and marks it when it changes the count. */
  twostate lemma InfoKept(fs: FATFS)
    requires old(fs.faulted) ==> fs.faulted
    requires |old(fs.View())| == |fs.View()|
    requires fs.g.fsType == FAT32 && FsInfoPlace(fs.g) && InfoSector(fs.g) < |fs.View()| ==>
               fs.View()[InfoSector(fs.g)] == old(fs.View())[InfoSector(fs.g)]
    requires Noted(old(fs.freeClst), old(fs.fsiFlag), fs.freeClst, fs.fsiFlag)
    ensures old(InfoOk(fs)) ==> InfoOk(fs)
  {
    hide Told;
  }

  // The sectors in front of the FATs are outside the tables.
  lemma InfoOutside(g: Geometry, v: seq<Sector>, w: seq<Sector>)
    requires g.Ok() && FsInfoPlace(g) && SameOutsideTables(g, v, w) && |v| == g.total
    ensures g.fsType == FAT32 ==> InfoSector(g) < |v| && w[InfoSector(g)] == v[InfoSector(g)]
  {
    FatInside(g);
  }

  lemma NotedNothing(free: dword, flag: nat)
    ensures Noted(free, flag, free, flag)
  {
  }

  lemma NotedTwice(free0: dword, flag0: nat, free1: dword, flag1: nat, free: dword, flag: nat)
    requires Noted(free0, flag0, free1, flag1) && Noted(free1, flag1, free, flag)
    ensures Noted(free0, flag0, free, flag)
  {
  }
}
