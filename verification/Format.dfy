/** What f_mkfs writes for a layout, and that mounting finds the same volume again. */
module Format {
  import opened Arith
  import opened Bytes
  import opened Layout
  import opened FatTable
  import opened Chains
  import opened Volume
  import opened Info
  import opened Mount
  import opened Mkfs
  import Deferred

  function Zero(n: nat): (s: seq<byte>)
    ensures |s| == n && forall i :: 0 <= i < n ==> s[i] == 0
  {
    seq(n, _ => 0)
  }

  // "FAT     "
  function FatTag(): (s: seq<byte>)
    ensures |s| == 8
  {
    [0x46, 0x41, 0x54, 0x20, 0x20, 0x20, 0x20, 0x20]
  }

  /** Bytes 0 to 35 of the boot sector, common to all types: jump code, "MSDOS5.0", geometry. */
  function Head(p: Plan, szVol: nat): (s: seq<byte>)
    ensures |s| == 36
  {
    var root := if p.fsty == FAT32 then 0 else p.nRoot;
    var tot16 := if szVol < 0x1_0000 then szVol else 0;
    var tot32 := if szVol < 0x1_0000 then 0 else szVol;
    var fat16 := if p.fsty == FAT32 then 0 else p.fat;
    [0xEB, 0xFE, 0x90, 0x4D, 0x53, 0x44, 0x4F, 0x53, 0x35, 0x2E, 0x30,
     0x00, 0x02, Lo(p.pau), Lo(p.rsv), Lo(p.rsv / 0x100), Lo(p.nFat), Lo(root), Lo(root / 0x100),
     Lo(tot16), Lo(tot16 / 0x100), 0xF8, Lo(fat16), Lo(fat16 / 0x100), 63, 0, 255, 0, 0, 0, 0, 0,
     Lo(tot32), Lo(tot32 / 0x100), Lo(tot32 / 0x1_0000), Lo(tot32 / 0x100_0000)]
  }

  // Drive number, boot signature, serial number, "NO NAME    ".
  function Label(vsn: dword): (s: seq<byte>)
    ensures |s| == 18
  {
    [0x80, 0, 0x29, Lo(vsn), Lo(vsn / 0x100), Lo(vsn / 0x1_0000), Lo(vsn / 0x100_0000),
     0x4E, 0x4F, 0x20, 0x4E, 0x41, 0x4D, 0x45, 0x20, 0x20, 0x20, 0x20]
  }

  /** The rest up to the signature: FAT size, version, root cluster 2, FSInfo in sector 1, backup in sector 6. */
  function Extent32(p: Plan): (s: seq<byte>)
    ensures |s| == 16
  {
    [Lo(p.fat), Lo(p.fat / 0x100), Lo(p.fat / 0x1_0000), Lo(p.fat / 0x100_0000), 0, 0, 0, 0, 2, 0, 0, 0, 1, 0, 6, 0]
  }

  function Tail32(p: Plan, vsn: dword): (s: seq<byte>)
    ensures |s| == 54
  {
    Extent32(p) + Zero(12) + Label(vsn) + Fat32Tag()
  }

  function Tail16(vsn: dword): (s: seq<byte>)
    ensures |s| == 54
  {
    Label(vsn) + FatTag() + Zero(28)
  }

  function BootSector(p: Plan, szVol: nat, vsn: dword): Sector {
    Head(p, szVol) + (if p.fsty == FAT32 then Tail32(p, vsn) else Tail16(vsn)) + Zero(420) + [0x55, 0xAA]
  }

  // A word made of its digits.
  lemma WordLoads(s: seq<byte>, i: nat, v: nat)
    requires i + 2 <= |s| && s[i] == Lo(v) && s[i + 1] == Lo(v / 0x100) && v < 0x1_0000
    ensures LdWord(s, i) == v
  {
    ModDigits(v, 0x100, 0x100);
  }

  lemma DwordLoads(s: seq<byte>, i: nat, v: dword)
    requires i + 4 <= |s| && s[i] == Lo(v) && s[i + 1] == Lo(v / 0x100) && s[i + 2] == Lo(v / 0x1_0000) && s[i + 3] == Lo(v / 0x100_0000)
    ensures LdDword(s, i) == v
  {
    DwordDigits(v);
  }

  // A piece of a concatenation.
  lemma Piece(a: seq<byte>, x: seq<byte>, c: seq<byte>)
    ensures forall i :: 0 <= i < |x| ==> (a + x + c)[|a| + i] == x[i]
  {
  }

  // Reading from a part of a sector.
  lemma PartLoads(w: seq<byte>, a: nat, x: seq<byte>, i: nat)
    requires a + |x| <= |w| && w[a..a + |x|] == x
    ensures i < |x| ==> w[a + i] == x[i]
    ensures i + 2 <= |x| ==> LdWord(w, a + i) == LdWord(x, i)
    ensures i + 4 <= |x| ==> LdDword(w, a + i) == LdDword(x, i)
  {
    forall k | i <= k < |x| ensures w[a + k] == x[k] {
      assert w[a..a + |x|][k] == w[a + k];
    }
  }

  lemma BootParts(p: Plan, szVol: nat, vsn: dword)
    ensures var w := BootSector(p, szVol, vsn);
            && w[0..36] == Head(p, szVol) && w[36..90] == (if p.fsty == FAT32 then Tail32(p, vsn) else Tail16(vsn))
            && LdWord(w, BS_55AA) == 0xAA55
  {
    hide Head, Tail32, Tail16;
    var h, t, w := Head(p, szVol), if p.fsty == FAT32 then Tail32(p, vsn) else Tail16(vsn), BootSector(p, szVol, vsn);
    assert w == h + t + Zero(420) + [0x55, 0xAA];
    assert w[510] == 0x55 && w[511] == 0xAA;
  }

  lemma SmallBytes()
    ensures Lo(512) == 0 && Lo(512 / 0x100) == 2
  {
  }

  // The fields in the first 36 bytes.
  lemma HeadFields(p: Plan, szVol: nat)
    requires Sound(p, szVol)
    ensures var h := Head(p, szVol);
            && h[0] == 0xEB && h[1] == 0xFE && LdWord(h, BPB_BytsPerSec) == 512 && h[BPB_SecPerClus] == p.pau
            && LdWord(h, BPB_RsvdSecCnt) == p.rsv && h[BPB_NumFATs] == p.nFat
            && LdWord(h, BPB_RootEntCnt) == (if p.fsty == FAT32 then 0 else p.nRoot)
  {
    var h := Head(p, szVol);
    SmallMod(p.pau, 0x100);
    SmallMod(p.nFat, 0x100);
    hide Sound, Lo, LdWord;
    WordLoads(h, BPB_BytsPerSec, 512) by { SmallBytes(); }
    WordLoads(h, BPB_RsvdSecCnt, p.rsv);
    WordLoads(h, BPB_RootEntCnt, if p.fsty == FAT32 then 0 else p.nRoot);
  }

  lemma HeadSizes(p: Plan, szVol: nat)
    requires Sound(p, szVol)
    ensures var h := Head(p, szVol);
            && LdWord(h, BPB_TotSec16) == (if szVol < 0x1_0000 then szVol else 0)
            && LdWord(h, BPB_FATSz16) == (if p.fsty == FAT32 then 0 else p.fat)
            && LdDword(h, BPB_TotSec32) == if szVol < 0x1_0000 then 0 else szVol
  {
    var h := Head(p, szVol);
    hide FatBytesNeeded, TypeOf, Pow2OrZero, Lo, LdWord, LdDword;
    WordLoads(h, BPB_TotSec16, if szVol < 0x1_0000 then szVol else 0);
    WordLoads(h, BPB_FATSz16, if p.fsty == FAT32 then 0 else p.fat);
    DwordLoads(h, BPB_TotSec32, if szVol < 0x1_0000 then 0 else szVol);
  }

  lemma TailFields(p: Plan, vsn: dword)
    requires p.fat < 0x1_0000_0000
    ensures var t := Tail32(p, vsn);
            && LdDword(t, BPB_FATSz32 - 36) == p.fat && LdWord(t, BPB_FSVer32 - 36) == 0
            && LdDword(t, BPB_RootClus32 - 36) == 2 && LdWord(t, BPB_FSInfo32 - 36) == 1 && t[46..54] == Fat32Tag()
    ensures Tail16(vsn)[46] == 0
  {
    var t, x := Tail32(p, vsn), Extent32(p);
    assert t[0..16] == x;
    assert t[46..54] == Fat32Tag();
    PartLoads(t, 0, x, 0);
    PartLoads(t, 0, x, 6);
    PartLoads(t, 0, x, 8);
    PartLoads(t, 0, x, 12);
    hide Label, Fat32Tag, Tail32;
    DwordLoads(x, 0, p.fat);
  }

  /** The fields that mounting reads from the boot sector that f_mkfs wrote. */
  ghost predicate FieldsOf(b: Bpb, p: Plan, szVol: nat) {
    && b.jump == 0xEB && !b.exfatTag && b.sign == 0xAA55 && b.bytesPerSec == 512 && b.secPerClus == p.pau && b.rsvd == p.rsv
    && b.numFats == p.nFat && b.rootEnt == (if p.fsty == FAT32 then 0 else p.nRoot)
    && VolumeSize(b) == szVol && (b.totSec16 >= 128 || b.totSec32 >= 0x1_0000)
    && b.fatSz16 == (if p.fsty == FAT32 then 0 else p.fat)
    && (p.fsty == FAT32 ==> b.fat32Tag && b.fatSz32 == p.fat && b.fsVer == 0 && b.rootClus == 2 && b.fsInfo == 1)
    && (p.fsty != FAT32 ==> !b.fat32Tag)
  }

  lemma BootReads(p: Plan, szVol: nat, vsn: dword)
    requires Sound(p, szVol)
    ensures FieldsOf(ReadBpb(BootSector(p, szVol, vsn)), p, szVol)
  {
    hide FatBytesNeeded, TypeOf, Pow2OrZero, Head, Tail32, Tail16, BootSector, LdWord, LdDword, Fat32Tag;
    var w, h, t := BootSector(p, szVol, vsn), Head(p, szVol), if p.fsty == FAT32 then Tail32(p, vsn) else Tail16(vsn);
    BootParts(p, szVol, vsn);
    HeadFields(p, szVol);
    HeadSizes(p, szVol);
    FatFits32(p, szVol);
    TailFields(p, vsn);
    HeadLoads(w, h);
    TailLoads(w, t);
    FatTagDiffers();
  }

  lemma FatFits32(p: Plan, szVol: nat)
    requires Sound(p, szVol)
    ensures p.fat < 0x1_0000_0000
  {
    FatsTotal(p.fat, p.nFat);
  }

  lemma HeadLoads(w: Sector, h: seq<byte>)
    requires |h| == 36 && w[0..36] == h
    ensures w[0] == h[0] && w[1] == h[1] && w[BPB_SecPerClus] == h[BPB_SecPerClus] && w[BPB_NumFATs] == h[BPB_NumFATs]
    ensures LdWord(w, BPB_BytsPerSec) == LdWord(h, BPB_BytsPerSec) && LdWord(w, BPB_RsvdSecCnt) == LdWord(h, BPB_RsvdSecCnt)
    ensures LdWord(w, BPB_RootEntCnt) == LdWord(h, BPB_RootEntCnt) && LdWord(w, BPB_TotSec16) == LdWord(h, BPB_TotSec16)
    ensures LdWord(w, BPB_FATSz16) == LdWord(h, BPB_FATSz16) && LdDword(w, BPB_TotSec32) == LdDword(h, BPB_TotSec32)
  {
    hide LdWord, LdDword;
    PartLoads(w, 0, h, 0);
    PartLoads(w, 0, h, 1);
    PartLoads(w, 0, h, BPB_SecPerClus);
    PartLoads(w, 0, h, BPB_NumFATs);
    PartLoads(w, 0, h, BPB_BytsPerSec);
    PartLoads(w, 0, h, BPB_RsvdSecCnt);
    PartLoads(w, 0, h, BPB_RootEntCnt);
    PartLoads(w, 0, h, BPB_TotSec16);
    PartLoads(w, 0, h, BPB_FATSz16);
    PartLoads(w, 0, h, BPB_TotSec32);
  }

  lemma TailLoads(w: Sector, t: seq<byte>)
    requires |t| == 54 && w[36..90] == t
    ensures LdDword(w, BPB_FATSz32) == LdDword(t, BPB_FATSz32 - 36) && LdWord(w, BPB_FSVer32) == LdWord(t, BPB_FSVer32 - 36)
    ensures LdDword(w, BPB_RootClus32) == LdDword(t, BPB_RootClus32 - 36) && LdWord(w, BPB_FSInfo32) == LdWord(t, BPB_FSInfo32 - 36)
    ensures w[BS_FilSysType32..BS_FilSysType32 + 8] == t[46..54]
  {
    hide LdWord, LdDword;
    PartLoads(w, 36, t, BPB_FATSz32 - 36);
    PartLoads(w, 36, t, BPB_FSVer32 - 36);
    PartLoads(w, 36, t, BPB_RootClus32 - 36);
    PartLoads(w, 36, t, BPB_FSInfo32 - 36);
    assert w[82..90] == w[36..90][46..54];
  }

  lemma FatTagDiffers()
    ensures Fat32Tag()[0] == 0x46
  {
  }

  /** The geometry that f_mkfs laid out. */
  function GeometryOf(p: Plan, szVol: nat): Geometry {
    Geometry(p.fsty, p.pau, p.nFat, p.nClst + 2, p.fat, 0, p.rsv, if p.fsty == FAT32 then 2 else p.rsv + p.fat * p.nFat,
             p.System(), 0, if p.fsty == FAT32 then 0 else p.nRoot, szVol)
  }

  /** A volume that f_mkfs formats is mounted with the same type, cluster count, FAT start and
      data start, if and only if it has a cluster. */
  lemma MkfsMounts(p: Plan, szVol: nat, vsn: dword)
    requires Sound(p, szVol)
    ensures var b := ReadBpb(BootSector(p, szVol, vsn));
            && IsFatVbr(b) && NoWrap(b)
            && (p.nClst > 0 <==> Analysed(b, 0, szVol).Some?)
            && (p.nClst > 0 ==> Analysed(b, 0, szVol) == Some(GeometryOf(p, szVol)) && GeometryOf(p, szVol).Ok())
  {
    hide *;
    var b := ReadBpb(BootSector(p, szVol, vsn));
    BootReads(p, szVol, vsn);
    IsVbr(b, p, szVol);
    FieldsAnalysed(b, p, szVol);
  }

  lemma FieldsAnalysed(b: Bpb, p: Plan, szVol: nat)
    requires Sound(p, szVol) && FieldsOf(b, p, szVol)
    ensures NoWrap(b) && (p.nClst > 0 <==> Analysed(b, 0, szVol).Some?)
    ensures p.nClst > 0 ==> Analysed(b, 0, szVol) == Some(GeometryOf(p, szVol)) && GeometryOf(p, szVol).Ok()
  {
    hide Pow2OrZero, FatBytesNeeded, IsFatVbr;
    FatsTotal(p.fat, p.nFat);
    AreaOf(b, p, szVol);
    Rounding(FatBytesNeeded(p.fsty, p.nClst + 2), p.fat);
  }

  lemma IsVbr(b: Bpb, p: Plan, szVol: nat)
    requires Sound(p, szVol) && FieldsOf(b, p, szVol)
    ensures IsFatVbr(b)
  {
    assert Pow2OrZero(8);
    assert Pow2OrZero(64);
    assert Pow2OrZero(512);
    hide Pow2OrZero, FatBytesNeeded, TypeOf;
  }

  lemma AreaOf(b: Bpb, p: Plan, szVol: nat)
    requires Sound(p, szVol) && FieldsOf(b, p, szVol)
    ensures NoWrap(b) && FatSize(b) == p.fat && SystemArea(b) == p.System()
    ensures FatSize(b) as int * b.numFats as int % 0x1_0000_0000 == p.fat * p.nFat
  {
    FatsTotal(p.fat, p.nFat);
    AreaIs(b);
  }

  lemma Rounding(n: nat, k: nat)
    requires n <= k * 512
    ensures (n + 511) / 512 <= k
  {
  }

  // FAT12 on 128 sectors, one FAT, data aligned to 128 sectors.
  const ALIGNED := Options(true, false, 1, 128, 512, 0)
  const EMPTY_PLAN := Plan(FAT12, 1, 1, 95, 1, 32, 512, 0)

  /** Not every volume that f_mkfs formats has a cluster: for this request aligning the data area leaves
      none, and the volume cannot be mounted. */
  lemma FormattedWithoutClusters(drive: nat, vsn: dword)
    ensures Requested(128, ALIGNED, drive) == Some(EMPTY_PLAN) && EMPTY_PLAN.nClst == 0
    ensures Analysed(ReadBpb(BootSector(EMPTY_PLAN, 128, vsn)), 0, 128) == None
  {
    hide BootSector, ReadBpb, Analysed, Requested, Accepted;
    EmptyRequested(drive);
    RequestedAccepted(128, ALIGNED, drive);
    AcceptedIsSound(EMPTY_PLAN, 128, BlockSectors(ALIGNED, drive));
    MkfsMounts(EMPTY_PLAN, 128, vsn);
  }

  lemma EmptyRequested(drive: nat)
    ensures Requested(128, ALIGNED, drive) == Some(EMPTY_PLAN)
  {
    EmptyLayout();
    assert BlockSectors(ALIGNED, drive) == 128 by { assert Pow2OrZero(8); }
    assert AuSectors(ALIGNED) == 0;
    hide PlanFor, Unaligned, BlockSectors, AuSectors, ClusterSectors;
    assert LayoutFrom(FAT16, 0, 128, ALIGNED, 128) == Some(EMPTY_PLAN);
  }

  lemma EmptyLayout()
    ensures ClusterSectors(FAT16, 0, 128) == 1
    ensures PlanFor(FAT16, 1, 128, 1, 512, 128) == EMPTY_PLAN && Unaligned(FAT16, 1, 128, 1, 512) == 34
  {
  }

  /** It has one if and only if one fits behind the system area that the request asks for, moved up to the
      next erase block; so without alignment always, and always on FAT16 and FAT32. */
  lemma HasCluster(szVol: nat, opt: Options, drive: nat, p: Plan)
    requires Requested(szVol, opt, drive) == Some(p)
    ensures p.pau > 0
    ensures var area := Unaligned(p.fsty, p.pau, szVol, Fats(opt), RootEntries(opt));
            p.nClst > 0 <==> area + Gap(area, BlockSectors(opt, drive)) + p.pau <= szVol
    ensures BlockSectors(opt, drive) == 1 || p.fsty != FAT12 ==> p.nClst > 0
  {
    hide FatSectors, Pow2OrZero, Requested, Unaligned, PlanFor, BlockSectors;
    RequestedAccepted(szVol, opt, drive);
    var blk := BlockSectors(opt, drive);
    AcceptedIsSound(p, szVol, blk);
    OneFits(szVol - p.System(), p.pau);
    AlignedArea(p.fsty, p.pau, szVol, p.nFat, p.nRoot, blk);
  }

  lemma OneFits(room: nat, pau: nat)
    requires pau > 0
    ensures room / pau > 0 <==> room >= pau
    ensures room >= pau * 16 ==> room / pau >= 16
  {
    MulSucc(pau, room / pau);
    if room / pau == 0 {
      SmallQuotient(room, pau);
    } else {
      MulLe(pau, 1, room / pau);
    }
    if room >= pau * 16 {
      MulLtInv(pau, 15, room / pau);
    }
  }

  lemma SmallQuotient(room: nat, pau: nat)
    requires pau > 0 && room / pau == 0
    ensures room < pau
  {
  }

  function ZeroSector(): Sector {
    Zero(512)
  }

  /** The first sector of a fresh FAT: entries 0 and 1, and on FAT32 the root directory's. */
  function FatHead(t: FsType): Sector {
    match t
    case FAT12 => [0xF8, 0xFF, 0xFF, 0x00] + Zero(508)
    case FAT16 => [0xF8, 0xFF, 0xFF, 0xFF] + Zero(508)
    case FAT32 => [0xF8, 0xFF, 0xFF, 0xFF, 0xFF, 0xFF, 0xFF, 0xFF, 0xFF, 0xFF, 0xFF, 0x0F] + Zero(500)
    case EXFAT => Zero(512)
  }

  // disk_write
  method WriteDrive(drive: seq<Sector>, sect: nat, data: seq<Sector>) returns (ok: bool, now: seq<Sector>)
    ensures |now| == |drive| && forall s :: 0 <= s < |drive| && !(sect <= s < sect + |data|) ==> now[s] == drive[s]
    ensures ok ==> sect + |data| <= |drive| && forall i :: 0 <= i < |data| ==> now[sect + i] == data[i]
  {
    ok, now := *, drive;
    if sect + |data| > |drive| {
      ok := false;
    } else {
      var stored: seq<Sector> := *;
      if ok {
        stored := data;
      }
      if |stored| == |data| {
        now := drive[..sect] + stored + drive[sect + |data|..];
      }
    }
  }

  // From v to w, n sectors from sect on became first and zeros.
  ghost predicate Filled(v: seq<Sector>, w: seq<Sector>, sect: nat, n: nat, first: Sector) {
    && |w| == |v| && sect + n <= |v|
    && forall s :: 0 <= s < |v| ==> w[s] == if sect <= s < sect + n then (if s == sect then first else ZeroSector()) else v[s]
  }

  // f_mkfs: write first and then zeros, with a buffer of szBuf sectors.
  method FillSectors(drive: seq<Sector>, sect0: nat, nsect0: nat, szBuf: nat, first: Sector) returns (ok: bool, now: seq<Sector>)
    requires nsect0 > 0 && szBuf > 0 && sect0 <= |drive|
    ensures |now| == |drive| && (ok ==> Filled(drive, now, sect0, nsect0, first))
  {
    hide ZeroSector;
    var buf := [first] + seq(szBuf - 1, _ => ZeroSector());
    var sect, nsect := sect0, nsect0;
    now := drive;
    while true
      invariant 0 < nsect <= nsect0 && sect == sect0 + (nsect0 - nsect) && |buf| == szBuf && |now| == |drive| && sect <= |drive|
      invariant Filled(drive, now, sect0, sect - sect0, first)
      invariant forall i :: 0 <= i < szBuf ==> buf[i] == if i == 0 && sect == sect0 then first else ZeroSector()
      decreases nsect
    {
      var n := if nsect > szBuf then szBuf else nsect;
      ghost var was := now;
      ok, now := WriteDrive(now, sect, buf[..n]);
      if !ok {
        return;
      }
      FilledMore(drive, was, now, sect0, sect, n, first, buf[..n]);
      buf := buf[0 := ZeroSector()];
      sect, nsect := sect + n, nsect - n;
      if nsect == 0 {
        break;
      }
    }
  }

  lemma FilledMore(v: seq<Sector>, u: seq<Sector>, w: seq<Sector>, sect0: nat, sect: nat, n: nat, first: Sector, d: seq<Sector>)
    requires sect0 <= sect && Filled(v, u, sect0, sect - sect0, first) && |d| == n > 0
    requires |w| == |u| && sect + n <= |u| && (forall s :: 0 <= s < |u| && !(sect <= s < sect + n) ==> w[s] == u[s])
    requires forall i :: 0 <= i < n ==> w[sect + i] == d[i]
    requires forall i :: 0 <= i < n ==> d[i] == if i == 0 && sect == sect0 then first else ZeroSector()
    ensures Filled(v, w, sect0, sect + n - sect0, first)
  {
    hide ZeroSector;
    forall s | sect <= s < sect + n ensures w[s] == if s == sect0 then first else ZeroSector() {
      assert w[sect + (s - sect)] == d[s - sect];
    }
  }

  /** Copy i of the FAT is fresh. */
  ghost predicate FreshFat(p: Plan, drive: seq<Sector>, i: nat) {
    && p.rsv + p.fat * i + p.fat <= |drive|
    && forall s :: p.rsv + p.fat * i <= s < p.rsv + p.fat * i + p.fat ==>
         drive[s] == if s == p.rsv + p.fat * i then FatHead(p.fsty) else ZeroSector()
  }

  /** Sectors of the root directory: static, or its first cluster. */
  function RootSectors(p: Plan): nat {
    if p.fsty == FAT32 then p.pau else p.dir
  }

  /** What a format leaves on the drive, apart from the FSInfo sector. */
  ghost predicate Formatted(p: Plan, drive: seq<Sector>, vsn: dword) {
    && |drive| > 0 && drive[0] == BootSector(p, |drive|, vsn)
    && FreshFat(p, drive, 0) && (p.nFat == 2 ==> FreshFat(p, drive, 1)) && FreshRoot(p, drive)
  }

  ghost predicate FreshRoot(p: Plan, drive: seq<Sector>) {
    && p.rsv + p.fat * p.nFat + RootSectors(p) <= |drive|
    && forall s :: p.rsv + p.fat * p.nFat <= s < p.rsv + p.fat * p.nFat + RootSectors(p) ==> drive[s] == ZeroSector()
  }

  // The reserved area stays as it is.
  ghost predicate SameReserved(p: Plan, v: seq<Sector>, w: seq<Sector>) {
    |w| == |v| && forall s :: 0 <= s < |v| && s < p.rsv ==> w[s] == v[s]
  }

  // f_mkfs: the FATs.
  method WriteFats(drive: seq<Sector>, p: Plan, szBuf: nat) returns (ok: bool, now: seq<Sector>, sect: nat)
    requires Sound(p, |drive|) && szBuf > 0
    ensures |now| == |drive|
    ensures ok ==> SameReserved(p, drive, now) && FreshFat(p, now, 0) && (p.nFat == 2 ==> FreshFat(p, now, 1))
    ensures ok ==> sect == p.rsv + p.fat * p.nFat
  {
    hide ZeroSector, FatHead, TypeOf, FatBytesNeeded, Pow2OrZero;
    ok, now, sect := true, drive, p.rsv;
    FatsTotal(p.fat, p.nFat);
    var i: nat := 0;
    while i < p.nFat
      invariant i <= p.nFat && sect == p.rsv + p.fat * i <= |drive| && SameReserved(p, drive, now) && ok
      invariant (i >= 1 ==> FreshFat(p, now, 0)) && (i >= 2 ==> FreshFat(p, now, 1))
    {
      ghost var was := now;
      ok, now := FillSectors(now, sect, p.fat, szBuf, FatHead(p.fsty));
      if !ok {
        return;
      }
      assert i >= 1 ==> FreshFat(p, was, 0);
      sect := sect + p.fat;
      i := i + 1;
    }
  }

  /** f_mkfs, behind the layout loop: boot sector, FSInfo and backups, FATs, root directory. The
      results of writing the FSInfo sector and the backups are ignored; clean says that no write failed. */
  method WriteVolume(drive: seq<Sector>, p: Plan, vsn: dword, szBuf: nat) returns (res: FRESULT, now: seq<Sector>, ghost clean: bool)
    requires Sound(p, |drive|) && szBuf > 0
    ensures |now| == |drive|
    ensures res == OK ==> Formatted(p, now, vsn) && (clean && p.fsty == FAT32 ==> now[1] == FsInfo((p.nClst - 1) as dword, 2))
    ensures res == OK || (res == DISK_ERR && !clean)
  {
    hide BootSector, FsInfo, ZeroSector, FatHead, FreshFat, FatBytesNeeded, Pow2OrZero;
    clean := true;
    res := DISK_ERR;
    var vbr, ok := BootSector(p, |drive|, vsn), false;
    ok, now := WriteDrive(drive, 0, [vbr]);
    if !ok {
      clean := false;
      return;
    }
    assert now[0] == [vbr][0];
    if p.fsty == FAT32 {
      ok, now := WriteDrive(now, 6, [vbr]);
      clean := clean && ok;
      var info := FsInfo(p.nClst - 1, 2);
      ok, now := WriteDrive(now, 7, [info]);
      clean := clean && ok;
      ok, now := WriteDrive(now, 1, [info]);
      clean := clean && ok;
      assert ok ==> now[1] == [info][0];
    }
    ghost var was := now;
    var sect;
    ok, now, sect := WriteFats(now, p, szBuf);
    if !ok {
      clean := false;
      return;
    }
    ghost var fats := now;
    RootRoom(p, |drive|);
    ok, now := FillSectors(now, sect, RootSectors(p), szBuf, ZeroSector());
    if !ok {
      clean := false;
      return;
    }
    RootWritten(p, fats, now, vsn);
    res := OK;
  }

  lemma RootRoom(p: Plan, szVol: nat)
    requires Sound(p, szVol)
    ensures 0 < RootSectors(p) && p.rsv + p.fat * p.nFat + RootSectors(p) <= szVol
  {
    if p.fsty == FAT32 {
      OneFits(szVol - p.System(), p.pau);
    }
  }

  lemma RootWritten(p: Plan, v: seq<Sector>, w: seq<Sector>, vsn: dword)
    requires |v| > 0 && v[0] == BootSector(p, |v|, vsn) && FreshFat(p, v, 0) && (p.nFat == 2 ==> FreshFat(p, v, 1))
    requires Filled(v, w, p.rsv + p.fat * p.nFat, RootSectors(p), ZeroSector()) && p.rsv > 0 && 1 <= p.nFat <= 2
    ensures Formatted(p, w, vsn) && SameReserved(p, v, w)
  {
    hide BootSector, ZeroSector, FatHead;
    FatsTotal(p.fat, p.nFat);
    assert p.nFat == 1 || p.nFat == 2;
  }

  // Number of entries of a fresh FAT that are not zero.
  function Reserved(t: FsType): nat {
    if t == FAT32 then 3 else 2
  }

  // Number of bytes of a fresh FAT that are not zero.
  function HeadBytes(t: FsType): nat {
    if t == FAT32 then 12 else if t == FAT12 then 3 else 4
  }

  lemma FatByte(p: Plan, drive: seq<Sector>, o: nat)
    requires Sound(p, |drive|) && p.nClst > 0 && FreshFat(p, drive, 0) && o < p.fat * 512 && p.fsty != EXFAT
    ensures GeometryOf(p, |drive|).Ok() && p.fat * 512 == |FatBytes(GeometryOf(p, |drive|), drive)|
    ensures FatBytes(GeometryOf(p, |drive|), drive)[o] == if o < 512 then FatHead(p.fsty)[o] else 0
  {
    hide *;
    MkfsMounts(p, |drive|, 0);
    FatInside(GeometryOf(p, |drive|));
    FatOfPlan(p, drive, o);
  }

  lemma FatOfPlan(p: Plan, drive: seq<Sector>, o: nat)
    requires GeometryOf(p, |drive|).Ok() && FreshFat(p, drive, 0) && o < p.fat * 512
    ensures p.fat * 512 == |FatBytes(GeometryOf(p, |drive|), drive)|
    ensures FatBytes(GeometryOf(p, |drive|), drive)[o] == if o < 512 then FatHead(p.fsty)[o] else 0
  {
    hide Geometry.Ok, FatHead;
    assert p.rsv + p.fat * 0 == p.rsv;
  }

  lemma FatHeadBytes(t: FsType, o: nat)
    requires o < 512 && t != EXFAT
    ensures HeadBytes(t) <= o ==> FatHead(t)[o] == 0
    ensures FatHead(t)[0] == 0xF8 && FatHead(t)[1] == 0xFF && FatHead(t)[2] == 0xFF
    ensures t == FAT32 ==> FatHead(t)[8] == 0xFF && FatHead(t)[9] == 0xFF && FatHead(t)[10] == 0xFF && FatHead(t)[11] == 0x0F
  {
  }

  // Behind its first bytes a fresh FAT is all zero.
  ghost predicate ZeroFrom(b: seq<byte>, o: nat) {
    forall i :: o <= i < |b| ==> b[i] == 0
  }

  lemma FatZeroFrom(p: Plan, drive: seq<Sector>)
    requires Sound(p, |drive|) && p.nClst > 0 && FreshFat(p, drive, 0) && p.fsty != EXFAT
    ensures var g := GeometryOf(p, |drive|);
            && g.Ok() && ZeroFrom(FatBytes(g, drive), HeadBytes(p.fsty)) && |FatBytes(g, drive)| == p.fat * 512
            && FatBytes(g, drive)[..4] == FatHead(p.fsty)[..4]
            && (p.fsty == FAT32 ==> FatBytes(g, drive)[8..12] == FatHead(FAT32)[8..12])
  {
    assert p.fat > 0;
    hide Sound, FreshFat, FatBytes, FatHead, Geometry.Ok;
    FatByte(p, drive, 0);
    var b := FatBytes(GeometryOf(p, |drive|), drive);
    forall i | 0 <= i < |b| ensures b[i] == if i < 512 then FatHead(p.fsty)[i] else 0 {
      FatByte(p, drive, i);
    }
    forall i | HeadBytes(p.fsty) <= i < |b| ensures b[i] == 0 {
      if i < 512 {
        FatHeadBytes(p.fsty, i);
      }
    }
  }

  // An entry behind those bytes is zero.
  lemma ZeroEntry(t: FsType, b: seq<byte>, c: nat)
    requires t != EXFAT && Offset(t, c) + Width(t) <= |b| && ZeroFrom(b, HeadBytes(t)) && Reserved(t) <= c
    ensures Masked(t, Raw(t, b, c)) == 0
  {
    var o := Offset(t, c);
    assert o >= HeadBytes(t);
    assert b[o] == 0 && b[o + 1] == 0;
    if t == FAT32 {
      assert b[o + 2] == 0 && b[o + 3] == 0;
    }
  }

  lemma RootEntry(b: seq<byte>)
    requires |b| >= 12 && b[8..12] == FatHead(FAT32)[8..12]
    ensures Masked(FAT32, Raw(FAT32, b, 2)) == 0x0FFF_FFFF
  {
    FatHeadBytes(FAT32, 8);
    assert b[8] == b[8..12][0] && b[9] == b[8..12][1] && b[10] == b[8..12][2] && b[11] == b[8..12][3];
  }

  // A fresh FAT marks every cluster as free, except the root directory's.
  lemma FreshLink(p: Plan, drive: seq<Sector>, c: nat)
    requires Sound(p, |drive|) && p.nClst > 0 && FreshFat(p, drive, 0) && p.fsty != EXFAT && 2 <= c < p.nClst + 2
    ensures var g := GeometryOf(p, |drive|);
            g.Ok() && Links(g.fsType, FatBytes(g, drive), g.nFatent)[c] == if p.fsty == FAT32 && c == 2 then 0x0FFF_FFFF else 0
  {
    hide FreshFat, FatBytes, FatHead, ZeroFrom, FatBytesNeeded, Raw, Masked;
    FatZeroFrom(p, drive);
    var t, b := p.fsty, FatBytes(GeometryOf(p, |drive|), drive);
    EntryInside(t, c, p.nClst + 2);
    if t == FAT32 && c == 2 {
      RootEntry(b);
    } else {
      ZeroEntry(t, b, c);
    }
  }

  /** The cluster lists of a fresh volume: none, or the root directory. */
  function FreshChains(t: FsType): ClusterLists {
    if t == FAT32 then map[2 := [2]] else map[]
  }

  /** A formatted volume is empty: its FAT agrees with no files at all. */
  lemma FreshVolume(p: Plan, drive: seq<Sector>)
    requires Sound(p, |drive|) && p.nClst > 0 && FreshFat(p, drive, 0) && p.fsty != EXFAT
    ensures var g := GeometryOf(p, |drive|);
            && g.Ok() && Disjoint(g, FreshChains(p.fsty))
            && FatAgrees(g, Links(g.fsType, FatBytes(g, drive), g.nFatent), FreshChains(p.fsty))
  {
    hide FreshFat, FatBytes, FatBytesNeeded, Links;
    FreshLink(p, drive, 2);
    var g, chains := GeometryOf(p, |drive|), FreshChains(p.fsty);
    var f := Links(g.fsType, FatBytes(g, drive), g.nFatent);
    if p.fsty == FAT32 {
      assert chains[2] == [2];
      assert Owned(chains, 2);
    }
    forall c | g.IsCluster(c) ensures f[c] == 0 <==> !Owned(chains, c) {
      FreshLink(p, drive, c);
    }
  }

  lemma FreshCount(p: Plan, drive: seq<Sector>)
    requires Sound(p, |drive|) && p.nClst > 0 && p.fsty != EXFAT
    ensures |FreeClusters(GeometryOf(p, |drive|), FreshChains(p.fsty))| == p.nClst - if p.fsty == FAT32 then 1 else 0
  {
    var g, chains := GeometryOf(p, |drive|), FreshChains(p.fsty);
    var all := Deferred.Below(g.nFatent);
    var used := if p.fsty == FAT32 then {0, 1, 2} else {0, 1};
    if p.fsty == FAT32 {
      assert chains[2] == [2];
      assert Owned(chains, 2);
    }
    assert FreeClusters(g, chains) == all - used;
    assert used <= all;
    assert |all - used| == |all| - |used|;
  }

  lemma FreshMirror(p: Plan, drive: seq<Sector>, winsect: nat)
    requires Sound(p, |drive|) && p.nClst > 0 && FreshFat(p, drive, 0) && (p.nFat == 2 ==> FreshFat(p, drive, 1))
    ensures GeometryOf(p, |drive|).Ok() && Mirrored(GeometryOf(p, |drive|), drive, false, winsect)
  {
    hide FatHead, FatBytesNeeded, TypeOf, Pow2OrZero, ZeroSector;
    MkfsMounts(p, |drive|, 0);
    assert p.fat * 1 == p.fat;
  }

  // What mounting remembers of the FSInfo sector that f_mkfs wrote.
  lemma FreshRemembered(p: Plan, drive: seq<Sector>, b: Bpb)
    requires Sound(p, |drive|) && p.nClst > 0 && p.fsty != EXFAT && FieldsOf(b, p, |drive|)
    requires p.fsty == FAT32 ==> |drive| > 1 && drive[1] == FsInfo((p.nClst - 1) as dword, 2)
    ensures Remembered(b, GeometryOf(p, |drive|), drive).0 == 0xFFFF_FFFF || CountOk(GeometryOf(p, |drive|), FreshChains(p.fsty), Remembered(b, GeometryOf(p, |drive|), drive).0)
    ensures CountOk(GeometryOf(p, |drive|), FreshChains(p.fsty), 0xFFFF_FFFF)
  {
    hide FsInfo, FreeClusters, FatBytesNeeded, TypeOf;
    FreshCount(p, drive);
    if p.fsty == FAT32 {
      FsInfoLoads(p.nClst - 1, 2);
    }
  }

  // Mounting what f_mkfs has written.
  method MountFresh(p: Plan, now: seq<Sector>, vsn: dword, ghost clean: bool) returns (res: FRESULT, fs: FATFS?, ghost failed: bool)
    requires Sound(p, |now|) && Formatted(p, now, vsn) && p.fsty != EXFAT && |now| < NO_SECTOR
    requires clean && p.fsty == FAT32 ==> |now| > 1 && now[1] == FsInfo((p.nClst - 1) as dword, 2)
    ensures !failed ==> (res == OK <==> p.nClst > 0)
    ensures res == OK && !failed && clean ==> fs != null && fresh(fs) && fs.Valid() && Booted(fs) && InfoOk(fs)
    ensures res == OK && !failed && clean ==> fs.chains == FreshChains(fs.g.fsType) && fs.g == GeometryOf(p, |now|)
  {
    hide PlanFor, BootSector, FsInfo, FreshFat, FatBytesNeeded, Pow2OrZero, FatBytes, FatTable.Links, FreeClusters, Mirrored, Analysed, IsFatVbr;
    hide FieldsOf, InfoOk, Remembered, Geometry.Ok, Disjoint, FatAgrees, ReadBpb;
    MkfsMounts(p, |now|, vsn);
    if p.nClst > 0 {
      FreshMirror(p, now, NO_SECTOR);
      FreshVolume(p, now);
      FreshCount(p, now);
      BootReads(p, |now|, vsn);
      if clean {
        FreshRemembered(p, now, ReadBpb(now[0]));
      }
    }
    RootOwned(p.fsty);
    res, fs, failed := MountVolume(now, true, FreshChains(p.fsty), if p.fsty == FAT32 then {2} else {});
  }

  /** f_mkfs, then mounting. If no drive call fails: it succeeds if and only if the request can be laid
      out with a cluster, and then the result is a valid volume with no files, all of whose clusters but
      the root directory's are free. */
  method FormatAndMount(drive: seq<Sector>, opt: Options, blk: nat, vsn: dword, szBuf: nat) returns (res: FRESULT, fs: FATFS?, ghost clean: bool)
    requires |drive| < NO_SECTOR && szBuf > 0
    ensures clean ==> (res == OK <==> Requested(|drive|, opt, blk).Some? && Requested(|drive|, opt, blk).value.nClst > 0)
    ensures res == OK && clean ==> fs != null && fresh(fs) && fs.Valid() && Booted(fs) && InfoOk(fs) && fs.chains == FreshChains(fs.g.fsType)
    ensures res == OK && clean ==> |FreeClusters(fs.g, fs.chains)| == fs.g.nFatent - 2 - if fs.g.fsType == FAT32 then 1 else 0
  {
    hide PlanFor, BootSector, FsInfo, FreshFat, FatBytesNeeded, Pow2OrZero, FatBytes, FatTable.Links, FreeClusters, Mirrored, Analysed, IsFatVbr, Accepted, Requested;
    hide Formatted, InfoOk, FATFS.Valid, Booted, FreshChains;
    fs, clean := null, true;
    var p, now;
    res, p := ChoosePlan(|drive|, opt, blk);
    if res != OK {
      return;
    }
    AcceptedIsSound(p, |drive|, BlockSectors(opt, blk));
    res, now, clean := WriteVolume(drive, p, vsn, szBuf);
    if res != OK {
      return;
    }
    ghost var failed;
    res, fs, failed := MountFresh(p, now, vsn, clean);
    clean := clean && !failed;
    if p.nClst > 0 {
      FreshCount(p, now);
    }
  }

  lemma RootOwned(t: FsType)
    ensures t == FAT32 ==> Owned(FreshChains(t), 2)
  {
    if t == FAT32 {
      assert FreshChains(t)[2] == [2];
    }
  }
}
