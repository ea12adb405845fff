/** Mounting a FAT12, FAT16 or FAT32 volume: from the boot sector to the file system object. */
module Mount {
  import opened Arith
  import opened Bytes
  import opened Layout
  import opened Chains
  import opened Volume
  import opened Info

  const BPB_BytsPerSec := 11
  const BPB_SecPerClus := 13
  const BPB_RsvdSecCnt := 14
  const BPB_NumFATs := 16
  const BPB_RootEntCnt := 17
  const BPB_TotSec16 := 19
  const BPB_FATSz16 := 22
  const BPB_TotSec32 := 32
  const BPB_FATSz32 := 36
  const BPB_FSVer32 := 42
  const BPB_RootClus32 := 44
  const BPB_FSInfo32 := 48
  const BS_FilSysType32 := 82

  /** The fields of a boot sector that mounting looks at. */
  datatype Bpb = Bpb(jump: byte, exfatTag: bool, sign: word, fat32Tag: bool, bytesPerSec: word, secPerClus: byte, rsvd: word,
                     numFats: byte, rootEnt: word, totSec16: word, totSec32: dword, fatSz16: word, fatSz32: dword,
                     fsVer: word, rootClus: dword, fsInfo: word)

  // "FAT32   "
  function Fat32Tag(): seq<byte> {
    [0x46, 0x41, 0x54, 0x33, 0x32, 0x20, 0x20, 0x20]
  }

  // The jump code of an exFAT boot sector and "EXFAT   "
  function ExFatTag(): (t: seq<byte>)
    ensures |t| == 11 && t[1] == 0x76
  {
    [0xEB, 0x76, 0x90, 0x45, 0x58, 0x46, 0x41, 0x54, 0x20, 0x20, 0x20]
  }

  function ReadBpb(w: Sector): Bpb {
    Bpb(w[0], w[0..11] == ExFatTag(), LdWord(w, BS_55AA), w[BS_FilSysType32..BS_FilSysType32 + 8] == Fat32Tag(),
        LdWord(w, BPB_BytsPerSec), w[BPB_SecPerClus], LdWord(w, BPB_RsvdSecCnt), w[BPB_NumFATs], LdWord(w, BPB_RootEntCnt),
        LdWord(w, BPB_TotSec16), LdDword(w, BPB_TotSec32), LdWord(w, BPB_FATSz16), LdDword(w, BPB_FATSz32),
        LdWord(w, BPB_FSVer32), LdDword(w, BPB_RootClus32), LdWord(w, BPB_FSInfo32))
  }

  // At most one bit of n is set.
  predicate Pow2OrZero(n: nat) {
    n <= 1 || (n % 2 == 0 && Pow2OrZero(n / 2))
  }

  /** check_fs for a boot sector that was read: is it the boot sector of a FAT volume, and not of an
      exFAT one? */
  predicate IsFatVbr(b: Bpb) {
    && (b.jump == 0xEB || b.jump == 0xE9 || b.jump == 0xE8)
    && !(b.sign == 0xAA55 && b.exfatTag)
    && ((b.sign == 0xAA55 && b.fat32Tag)
        || (Pow2OrZero(b.bytesPerSec) && b.bytesPerSec == 512 && b.secPerClus != 0 && Pow2OrZero(b.secPerClus)
            && b.rsvd != 0 && 1 <= b.numFats <= 2 && b.rootEnt != 0 && (b.totSec16 >= 128 || b.totSec32 >= 0x1_0000)
            && b.fatSz16 != 0))
  }

  // FAT size, volume size and size of the system area, in 32-bit arithmetic.
  function FatSize(b: Bpb): dword {
    if b.fatSz16 == 0 then b.fatSz32 else b.fatSz16
  }

  function VolumeSize(b: Bpb): dword {
    if b.totSec16 == 0 then b.totSec32 else b.totSec16
  }

  function SystemArea(b: Bpb): dword {
    (b.rsvd as int + FatSize(b) as int * b.numFats as int % 0x1_0000_0000 + b.rootEnt as int / 16) % 0x1_0000_0000
  }

  function TypeOf(nclst: nat): FsType {
    if nclst <= MAX_FAT12 then FAT12 else if nclst <= MAX_FAT16 then FAT16 else FAT32
  }

  datatype Option<T> = None | Some(value: T)

  /** The part of mount_volume that analyses the BPB of a FAT volume at sector bsect of a drive
      of total sectors: none if it is refused. */
  function Analysed(b: Bpb, bsect: nat, total: nat): Option<Geometry> {
    if b.bytesPerSec != 512 then None
    else if b.numFats != 1 && b.numFats != 2 then None
    else if b.secPerClus == 0 || !Pow2OrZero(b.secPerClus) then None
    else if b.rootEnt % 16 != 0 then None
    else if b.rsvd == 0 then None
    else if VolumeSize(b) < SystemArea(b) then None
    else
      var nclst := (VolumeSize(b) - SystemArea(b)) / b.secPerClus;
      if nclst == 0 || nclst > MAX_FAT32 then None
      else if TypeOf(nclst) == FAT32 && (b.fsVer != 0 || b.rootEnt != 0) then None
      else if TypeOf(nclst) != FAT32 && b.rootEnt == 0 then None
      else
        var t := TypeOf(nclst);
        var fatbase := bsect + b.rsvd;
        if FatSize(b) < (FatBytesNeeded(t, nclst + 2) + 511) / 512 then None
        else Some(Geometry(t, b.secPerClus, b.numFats, nclst + 2, FatSize(b), bsect, fatbase,
                           if t == FAT32 then b.rootClus else fatbase + FatSize(b) as int * b.numFats as int % 0x1_0000_0000,
                           bsect + SystemArea(b), 0, b.rootEnt, total))
  }

  // The sizes in the boot sector do not overflow 32 bits.
  predicate NoWrap(b: Bpb) {
    b.rsvd as int + FatSize(b) as int * b.numFats as int + b.rootEnt as int / 16 < 0x1_0000_0000
  }

  /** Whatever boot sector mounting accepts for a volume that lies on the drive: the FAT holds an entry
      for every cluster, FATs and clusters are disjoint and inside the volume, if and only if the sizes
      do not overflow. Clusters are inside the volume in any case. */
  lemma MountedOk(b: Bpb, bsect: nat, total: nat)
    requires Analysed(b, bsect, total).Some? && bsect + VolumeSize(b) <= total < NO_SECTOR
    ensures Analysed(b, bsect, total).value.Ok() <==> NoWrap(b)
    ensures Analysed(b, bsect, total).value.DataEnd() <= bsect + VolumeSize(b)
  {
    hide Pow2OrZero, FatSize, VolumeSize, FatBytesNeeded, SystemArea, NoWrap;
    var g, nclst := Analysed(b, bsect, total).value, (VolumeSize(b) - SystemArea(b)) / b.secPerClus;
    WholeClusters(VolumeSize(b) - SystemArea(b), b.secPerClus);
    RoundedUp(FatBytesNeeded(TypeOf(nclst), nclst + 2), FatSize(b));
    assert g.csize * (g.nFatent - 2) <= VolumeSize(b) - SystemArea(b);
    if NoWrap(b) {
      AreaIs(b);
    } else {
      AreaWraps(b);
    }
    hide Analysed;
  }

  // With an overflow the system area comes out smaller than the FATs.
  lemma AreaWraps(b: Bpb)
    requires !NoWrap(b) && (b.numFats == 1 || b.numFats == 2)
    ensures SystemArea(b) < b.rsvd + b.numFats as int * FatSize(b) as int
  {
    hide FatSize;
    var fats := FatSize(b) as int * b.numFats as int;
    if fats < 0x1_0000_0000 {
      SmallMod(fats, 0x1_0000_0000);
      DivUnique(b.rsvd as int + fats + b.rootEnt as int / 16, 0x1_0000_0000, 1, b.rsvd as int + fats + b.rootEnt as int / 16 - 0x1_0000_0000);
    }
  }

  /** The sub-type goes by the number of clusters that the numbers in the boot sector leave room for: up to 4085
      FAT12, up to 65525 FAT16, more FAT32. */
  lemma SubType(b: Bpb, bsect: nat, total: nat)
    requires Analysed(b, bsect, total).Some? && NoWrap(b)
    ensures var fat := if b.fatSz16 == 0 then b.fatSz32 else b.fatSz16 as int;
            var size := if b.totSec16 == 0 then b.totSec32 else b.totSec16 as int;
            var n := (size as int - b.rsvd as int - b.numFats as int * fat as int - b.rootEnt as int / 16) / b.secPerClus as int;
            var g := Analysed(b, bsect, total).value;
            && (g.fsType == FAT12 <==> n <= 4085) && (g.fsType == FAT16 <==> 4085 < n <= 65525) && (g.fsType == FAT32 <==> 65525 < n)
            && g.nFatent == n + 2 && g.fatbase == bsect + b.rsvd
            && g.database == bsect + b.rsvd + b.numFats as int * fat as int + b.rootEnt as int / 16
  {
    hide Pow2OrZero, FatBytesNeeded;
    AreaIs(b);
  }

  /** The FSInfo sector lies in front of the FAT unless a FAT32 volume has one reserved sector only; then it is
      the first sector of the FAT. */
  lemma InfoPlaced(b: Bpb, bsect: nat, total: nat)
    requires Analysed(b, bsect, total).Some?
    ensures var g := Analysed(b, bsect, total).value;
            && (FsInfoPlace(g) <==> g.fsType != FAT32 || b.rsvd > 1)
            && (!FsInfoPlace(g) ==> InfoSector(g) == g.fatbase)
  {
    hide Pow2OrZero, FatBytesNeeded, SystemArea, VolumeSize, FatSize;
  }

  const WRAPPED := Bpb(0xEB, false, 0xAA55, true, 512, 1, 32, 2, 0, 0, 200000, 0, 0x8000_0000, 0, 2, 1)

  /** Such an overflow: mounting accepts two FATs of 2^31 sectors on a volume of 200000 sectors, and takes
      the data to begin where the first FAT does. */
  lemma WrappedAccepted()
    ensures IsFatVbr(WRAPPED) && Analysed(WRAPPED, 0, 200000).Some?
    ensures var g := Analysed(WRAPPED, 0, 200000).value; g.fatbase == g.database == 32 && g.fsize == 0x8000_0000 && !g.Ok()
  {
    var b := WRAPPED;
    assert Pow2OrZero(1);
    assert SystemArea(b) == 32 && VolumeSize(b) == 200000 && FatSize(b) == 0x8000_0000;
    assert TypeOf(199968) == FAT32;
    assert !NoWrap(b);
    MountedOk(b, 0, 200000);
  }

  lemma AreaIs(b: Bpb)
    requires NoWrap(b)
    ensures SystemArea(b) == b.rsvd + FatSize(b) * b.numFats + b.rootEnt / 16
    ensures b.numFats == 1 || b.numFats == 2 ==> FatSize(b) * b.numFats as int == b.numFats as int * FatSize(b) as int
  {
    MulLe(FatSize(b), 0, b.numFats);
    SmallMod(FatSize(b) as int * b.numFats as int, 0x1_0000_0000);
    SmallMod(b.rsvd as int + FatSize(b) as int * b.numFats as int + b.rootEnt as int / 16, 0x1_0000_0000);
  }

  lemma WholeClusters(room: nat, csize: nat)
    requires csize > 0
    ensures csize * (room / csize) <= room
  {
  }

  lemma RoundedUp(n: nat, k: nat)
    requires k >= (n + 511) / 512
    ensures n <= k * 512
  {
  }

  // disk_read of one sector into the window.
  method LoadSector(drive: seq<Sector>, sect: nat, win: array<byte>) returns (ok: bool)
    requires win.Length == SECTOR_SIZE
    modifies win
    ensures ok ==> sect < |drive| && win[..] == drive[sect]
  {
    ok := *;
    if sect >= |drive| {
      ok := false;
    }
    if ok {
      var d := drive[sect];
      forall i | 0 <= i < SECTOR_SIZE { win[i] := d[i]; }
      assert win[..] == d;
    }
  }

  /** What mounting remembers of an FSInfo sector: the free count and the last allocated cluster. */
  function Remembered(b: Bpb, g: Geometry, drive: seq<Sector>): (dword, dword) {
    if g.fsType == FAT32 && b.fsInfo == 1 && |drive| > 1 && IsFsInfo(drive[1])
    then (LdDword(drive[1], FSI_Free_Count), LdDword(drive[1], FSI_Nxt_Free)) else (0xFFFF_FFFF, 0xFFFF_FFFF)
  }

  /** The boot sector still is one from which mounting would get this geometry, and it decides whether the
      FSInfo sector is used. */
  ghost predicate Booted(fs: FATFS)
    reads fs, fs.win
  {
    && (fs.fsiFlag <= 1 || 0x80 <= fs.fsiFlag <= 0x81)
    && |fs.View()| > 0 && fs.g.volbase == 0 < fs.g.fatbase
    && IsFatVbr(ReadBpb(fs.View()[0])) && Analysed(ReadBpb(fs.View()[0]), 0, |fs.View()|) == Some(fs.g)
    && (fs.g.fsType == FAT32 && !fs.faulted && ReadBpb(fs.View()[0]).fsInfo == 1 ==> fs.fsiFlag < 0x80)
  }

  /** mount_volume for a drive that is one FAT volume: find_volume looks at sector 0. Partition tables
      and exFAT volumes are outside of this. Chains and sys say what the volume holds; they are not read. */
  method MountVolume(drive: seq<Sector>, ghost agreed: bool, ghost chains: ClusterLists, ghost sys: set<nat>)
    returns (res: FRESULT, fs: FATFS?, ghost failed: bool)
    requires |drive| < NO_SECTOR
    requires agreed && |drive| > 0 ==>
               var a := Analysed(ReadBpb(drive[0]), 0, |drive|);
               a.Some? && a.value.Ok() ==> Mirrored(a.value, drive, false, NO_SECTOR)
    ensures res == OK ==>
              && |drive| > 0 && IsFatVbr(ReadBpb(drive[0]))
              && fs != null && fresh(fs) && fresh(fs.win) && Analysed(ReadBpb(drive[0]), 0, |drive|) == Some(fs.g)
              && fs.View() == fs.disk == drive && !fs.wflag && fs.faulted == failed
              && fs.agreed == agreed && fs.chains == chains && fs.sys == sys
              && (fs.g.Ok() ==> fs.WindowOk())
              && (!failed ==> (fs.freeClst, fs.lastClst) == Remembered(ReadBpb(drive[0]), fs.g, drive))
              && (failed ==> fs.freeClst == fs.lastClst == 0xFFFF_FFFF)
              && fs.fsiFlag == (if fs.g.fsType == FAT32 && ReadBpb(drive[0]).fsInfo == 1 && !failed then 0 else 0x80)
              && InfoOk(fs) && Booted(fs)
    ensures res == NO_FILESYSTEM ==> |drive| > 0 && (!IsFatVbr(ReadBpb(drive[0])) || Analysed(ReadBpb(drive[0]), 0, |drive|).None?)
    ensures res == OK || res == NO_FILESYSTEM || (res == DISK_ERR && failed)
  {
    hide IsFatVbr, Analysed, IsFsInfo, ReadBpb, Booted, InfoOk, FATFS.WindowOk, Geometry.Ok;
    fs, failed := null, false;
    var win := new byte[SECTOR_SIZE](_ => 0);
    var ok := LoadSector(drive, 0, win);
    if !ok {
      return DISK_ERR, fs, true;
    }
    var b := ReadBpb(win[..]);
    if !IsFatVbr(b) {
      return NO_FILESYSTEM, fs, false;
    }
    var a := Analysed(b, 0, |drive|);
    if a.None? {
      return NO_FILESYSTEM, fs, false;
    }
    var g, free, last, flag, winsect: nat := a.value, 0xFFFF_FFFF, 0xFFFF_FFFF, 0x80, 0;
    if g.fsType == FAT32 && b.fsInfo == 1 {
      ok := LoadSector(drive, 1, win);
      winsect, failed := if ok then 1 else NO_SECTOR, !ok;
      if ok {
        flag := 0;
        if IsFsInfo(win[..]) {
          free, last := LdDword(win[..], FSI_Free_Count), LdDword(win[..], FSI_Nxt_Free);
        }
      }
    }
    DriveSize(b, |drive|);
    fs := new FATFS(g, drive, win, winsect, free, last, flag, failed, agreed, chains, sys);
    MountedInfo(fs);
    res := OK;
  }

  lemma MountedInfo(fs: FATFS)
    requires !fs.wflag && |fs.disk| > 0 && IsFatVbr(ReadBpb(fs.disk[0])) && Analysed(ReadBpb(fs.disk[0]), 0, |fs.disk|) == Some(fs.g)
    requires !fs.faulted ==> (fs.freeClst, fs.lastClst) == Remembered(ReadBpb(fs.disk[0]), fs.g, fs.disk)
    requires fs.fsiFlag == if fs.g.fsType == FAT32 && ReadBpb(fs.disk[0]).fsInfo == 1 && !fs.faulted then 0 else 0x80
    ensures InfoOk(fs) && Booted(fs)
  {
    DriveSize(ReadBpb(fs.disk[0]), |fs.disk|);
    hide IsFatVbr, Analysed, ReadBpb, IsFsInfo;
    assert fs.View() == fs.disk;
  }

  lemma DriveSize(b: Bpb, total: nat)
    requires Analysed(b, 0, total).Some?
    ensures Analysed(b, 0, total).value.total == total && Analysed(b, 0, total).value.volbase == 0 < Analysed(b, 0, total).value.fatbase
  {
  }
}
