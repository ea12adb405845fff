/** f_mkfs for FAT12, FAT16 and FAT32 without a partition table: the layout of the volume. */
module Mkfs {
  import opened Arith
  import opened Bytes
  import opened Layout
  import opened Mount

  /** Format options: which types are allowed, number of FATs, data area alignment, root entries,
      cluster size in bytes; 0 asks for the default. */
  datatype Options = Options(fat: bool, fat32: bool, nFat: nat, align: nat, nRoot: nat, auSize: nat)

  function Fats(opt: Options): (n: nat)
    ensures 1 <= n <= 2
  {
    if 1 <= opt.nFat <= 2 then opt.nFat else 1
  }

  function RootEntries(opt: Options): (n: nat)
    ensures 16 <= n <= 32768 && n % 16 == 0
  {
    if 1 <= opt.nRoot <= 32768 && opt.nRoot % 16 == 0 then opt.nRoot else 512
  }

  // Cluster size in sectors, at most 128; 0 for automatic.
  function AuSectors(opt: Options): (n: nat)
    ensures n <= 128 && Pow2OrZero(n)
  {
    var au := (if opt.auSize <= 0x100_0000 && Pow2OrZero(opt.auSize) then opt.auSize else 0) / SECTOR_SIZE;
    assert Pow2OrZero(au) by {
      if opt.auSize <= 0x100_0000 && Pow2OrZero(opt.auSize) {
        HalvedPow2(opt.auSize, 9);
      }
    }
    assert Pow2OrZero(128);
    if au > 128 then 128 else au
  }

  lemma {:induction false} HalvedPow2(n: nat, k: nat)
    requires Pow2OrZero(n)
    ensures Pow2(k) > 0 && Pow2OrZero(n / Pow2(k))
    ensures k == 9 ==> Pow2(k) == 512
  {
    if k > 0 {
      HalvedPow2(n / 2, k - 1);
      DivDiv(n, 2, Pow2(k - 1));
    }
    assert Pow2(3) == 8;
    assert Pow2(6) == 64;
  }

  // Erase block size in sectors; drive is what the drive reports, 1 if it does not.
  function BlockSectors(opt: Options, drive: nat): (n: nat)
    ensures 1 <= n <= 0x8000
  {
    var b := if opt.align == 0 then drive else opt.align;
    if b == 0 || b > 0x8000 || !Pow2OrZero(b) then 1 else b
  }

  /** A layout: type, sectors per cluster, reserved sectors, sectors per FAT, number of FATs,
      sectors and entries of the root directory, clusters. */
  datatype Plan = Plan(fsty: FsType, pau: nat, rsv: nat, fat: nat, nFat: nat, dir: nat, nRoot: nat, nClst: dword)
  {
    function System(): nat {
      rsv + fat * nFat + dir
    }
  }

  const WRAP: nat := 0x1_0000_0000

  // FAT size in sectors for x clusters, in 32-bit arithmetic.
  function FatSectors(t: FsType, x: nat): nat {
    match t
    case FAT32 => (x * 4 + 8 + 511) % WRAP / 512
    case FAT16 => ((x * 2 + 4) % WRAP + 511) % WRAP / 512
    case FAT12 => ((x * 3 + 1) % WRAP / 2 + 3 + 511) / 512
    case EXFAT => 0
  }

  // The distance of x from the next multiple of blk.
  function Gap(x: nat, blk: nat): (n: nat)
    requires blk > 0
    ensures n < blk
  {
    if x % blk == 0 then 0 else blk - x % blk
  }

  // FAT12 or FAT16, by the number of clusters without a system area.
  function SubType(fsty: FsType, x: nat): FsType {
    if fsty == FAT32 then FAT32 else if x > MAX_FAT12 then FAT16 else FAT12
  }

  /** One round of the layout loop of f_mkfs: the layout for the given type and cluster size. */
  function PlanFor(fsty: FsType, pau: nat, szVol: nat, nFat: nat, nRoot: nat, blk: nat): (p: Plan)
    requires pau > 0 && blk > 0 && 1 <= nFat <= 2
    ensures p.pau == pau && p.nFat == nFat && p.nRoot == nRoot
  {
    var x := szVol / pau;
    var t := SubType(fsty, x);
    var fat0 := FatSectors(t, x);
    var rsv0 := if t == FAT32 then 32 else 1;
    var dir := if t == FAT32 then 0 else nRoot * 32 / 512;
    var n := Gap(rsv0 + fat0 * nFat + dir, blk);
    var odd := if t != FAT32 && n % nFat != 0 then 1 else 0;
    var rsv := if t == FAT32 then rsv0 + n else rsv0 + odd;
    var fat := if t == FAT32 then fat0 else fat0 + (n - odd) / nFat;
    Plan(t, pau, rsv, fat, nFat, dir, nRoot, (szVol - rsv - fat * nFat - dir) % WRAP / pau)
  }

  // Where the data area starts before it is aligned.
  function Unaligned(fsty: FsType, pau: nat, szVol: nat, nFat: nat, nRoot: nat): nat
    requires pau > 0
  {
    var t := SubType(fsty, szVol / pau);
    (if t == FAT32 then 32 else 1) + FatSectors(t, szVol / pau) * nFat + if t == FAT32 then 0 else nRoot * 32 / 512
  }

  // cst[] and cst32[]: volume sizes from which the next larger cluster is taken.
  const CST: seq<nat> := [1, 4, 16, 64, 256, 512, 0]
  const CST32: seq<nat> := [1, 2, 4, 8, 16, 32, 0]

  // Automatic cluster size: doubled for every entry of the table that n has reached.
  function AutoSize(table: seq<nat>, n: nat, i: nat, pau: nat): (r: nat)
    ensures r >= pau
    decreases |table| - i
  {
    if i < |table| && table[i] != 0 && table[i] <= n then AutoSize(table, n, i + 1, pau * 2) else pau
  }

  // Automatic cluster size.
  method AutoCluster(table: seq<nat>, n: nat) returns (pau: nat)
    requires |table| == 7 && table[6] == 0
    ensures 1 <= pau <= 64 && Pow2OrZero(pau) && pau == AutoSize(table, n, 0, 1)
  {
    var i: nat := 0;
    pau := 1;
    while table[i] != 0 && table[i] <= n
      invariant i <= 6 && pau == Pow2(i) && AutoSize(table, n, 0, 1) == AutoSize(table, n, i, pau)
      decreases 6 - i
    {
      i, pau := i + 1, pau * 2;
    }
    Pow2Small(i);
  }

  lemma {:induction false} Pow2Small(i: nat)
    requires i <= 6
    ensures Pow2(i) <= 64 && Pow2OrZero(Pow2(i))
  {
    assert Pow2(6) == 64 by { assert Pow2(3) == 8; }
    if i > 0 {
      Pow2Small(i - 1);
      Pow2Mono(i, 6);
    }
  }

  lemma {:induction false} Pow2Mono(i: nat, j: nat)
    requires i <= j
    ensures Pow2(i) <= Pow2(j)
    decreases j - i
  {
    if i < j {
      Pow2Mono(i, j - 1);
    }
  }

  /** What the checks of the layout loop leave: a plan made for this type and cluster size whose
      cluster count suits its type. */
  ghost predicate Accepted(p: Plan, szVol: nat, blk: nat) {
    && 1 <= p.pau <= 128 && Pow2OrZero(p.pau) && 1 <= p.nFat <= 2 && 16 <= p.nRoot <= 32768 && p.nRoot % 16 == 0
    && 1 <= blk <= 0x8000 && 128 <= szVol < WRAP
    && p == PlanFor(p.fsty, p.pau, szVol, p.nFat, p.nRoot, blk)
    && szVol >= Unaligned(p.fsty, p.pau, szVol, p.nFat, p.nRoot) + p.pau * 16
    && match p.fsty
       case FAT32 => MAX_FAT16 < szVol / p.pau <= MAX_FAT32 && p.nClst > MAX_FAT16
       case FAT16 => MAX_FAT12 < p.nClst <= MAX_FAT16
       case FAT12 => p.nClst <= MAX_FAT12
       case EXFAT => false
  }

  lemma SubTypeAgain(fsty: FsType, x: nat)
    requires fsty == FAT32 || fsty == FAT16
    ensures var t := SubType(fsty, x); SubType(t, x) == t && t != EXFAT
  {
  }

  lemma PlanAgain(fsty: FsType, pau: nat, szVol: nat, nFat: nat, nRoot: nat, blk: nat)
    requires pau > 0 && blk > 0 && 1 <= nFat <= 2 && (fsty == FAT32 || fsty == FAT16)
    ensures var p := PlanFor(fsty, pau, szVol, nFat, nRoot, blk);
            && p.fsty != EXFAT && (fsty == FAT32 <==> p.fsty == FAT32) && p == PlanFor(p.fsty, pau, szVol, nFat, nRoot, blk)
            && Unaligned(p.fsty, pau, szVol, nFat, nRoot) == Unaligned(fsty, pau, szVol, nFat, nRoot)
  {
    hide FatSectors, Gap;
    SubTypeAgain(fsty, szVol / pau);
  }

  lemma HalfPow2(pau: nat)
    requires 1 <= pau <= 128 && Pow2OrZero(pau)
    ensures Pow2OrZero(pau / 2) && Pow2OrZero(pau * 2)
    ensures pau / 2 != 0 ==> 1 <= pau / 2 <= 64
  {
    assert pau * 2 / 2 == pau && pau * 2 % 2 == 0;
  }

  // Sectors per cluster in a round of the layout loop.
  function ClusterSectors(fsty: FsType, szAu: nat, szVol: nat): (pau: nat)
    ensures pau > 0
  {
    if szAu > 0 then szAu else if fsty == FAT32 then AutoSize(CST32, szVol / 0x2_0000, 0, 1) else AutoSize(CST, szVol / 0x1000, 0, 1)
  }

  datatype Round = Accept | Abort | Retry(fsty: FsType, szAu: nat)

  /** What the checks behind a plan of the layout loop decide. */
  function Decide(p: Plan, fsty: FsType, szAu: nat, pau: nat, fat32: bool): Round {
    if p.fsty == FAT32 && p.nClst <= MAX_FAT16 then
      if szAu == 0 && pau / 2 != 0 then Retry(fsty, pau / 2) else Abort
    else if p.fsty == FAT16 && p.nClst > MAX_FAT16 then
      if szAu == 0 && pau * 2 <= 64 then Retry(fsty, pau * 2)
      else if fat32 then Retry(FAT32, szAu)
      else if szAu == 0 && pau * 2 <= 128 then Retry(fsty, pau * 2)
      else Abort
    else if p.fsty == FAT16 && p.nClst <= MAX_FAT12 then
      if szAu == 0 && pau * 2 <= 128 then Retry(fsty, pau * 2) else Abort
    else if p.fsty == FAT12 && p.nClst > MAX_FAT12 then Abort
    else Accept
  }

  /** The layout that the loop ends with, from a type and a cluster size (0 for automatic) on. */
  function LayoutFrom(fsty: FsType, szAu: nat, szVol: nat, opt: Options, blk: nat): Option<Plan>
    requires blk > 0 && (fsty == FAT16 || fsty == FAT32)
    decreases fsty == FAT16, szAu == 0
  {
    var pau := ClusterSectors(fsty, szAu, szVol);
    var p := PlanFor(fsty, pau, szVol, Fats(opt), RootEntries(opt), blk);
    if fsty == FAT32 && (szVol / pau <= MAX_FAT16 || szVol / pau > MAX_FAT32) then None
    else if szVol < Unaligned(fsty, pau, szVol, Fats(opt), RootEntries(opt)) + pau * 16 then None
    else match Decide(p, fsty, szAu, pau, opt.fat32)
         case Accept => Some(p)
         case Abort => None
         case Retry(t, au) => LayoutFrom(t, au, szVol, opt, blk)
  }

  /** The layout that f_mkfs settles on for a request, if it accepts it. */
  function Requested(szVol: nat, opt: Options, drive: nat): Option<Plan> {
    if szVol < 128 || szVol >= WRAP || (!opt.fat && !opt.fat32) then None
    else LayoutFrom(if opt.fat then FAT16 else FAT32, AuSectors(opt), szVol, opt, BlockSectors(opt, drive))
  }

  /** The layout loop of f_mkfs. It ends: every retry settles the cluster size or the type. */
  method ChoosePlan(szVol: nat, opt: Options, drive: nat) returns (res: FRESULT, p: Plan)
    ensures Requested(szVol, opt, drive) == if res == OK then Some(p) else None
    ensures res == OK ==> Accepted(p, szVol, BlockSectors(opt, drive)) && p.nFat == Fats(opt) && p.nRoot == RootEntries(opt)
    ensures res == OK || res == MKFS_ABORTED || res == INVALID_PARAMETER
  {
    hide PlanFor, Unaligned, Pow2OrZero, Accepted, AutoSize, AuSectors, BlockSectors, Fats, RootEntries;
    var blk, nFat, nRoot, szAu := BlockSectors(opt, drive), Fats(opt), RootEntries(opt), AuSectors(opt);
    p := Plan(FAT12, 1, 0, 0, 1, 0, 0, 0);
    if szVol < 128 || szVol >= WRAP {
      return MKFS_ABORTED, p;
    }
    if !opt.fat && !opt.fat32 {
      return INVALID_PARAMETER, p;
    }
    var fsty := if opt.fat then FAT16 else FAT32;
    while true
      invariant (fsty == FAT16 || fsty == FAT32) && szAu <= 128 && Pow2OrZero(szAu)
      invariant Requested(szVol, opt, drive) == LayoutFrom(fsty, szAu, szVol, opt, blk)
      decreases fsty == FAT16, szAu == 0
    {
      var pau := szAu;
      if fsty == FAT32 {
        if pau == 0 {
          pau := AutoCluster(CST32, szVol / 0x2_0000);
        }
        if szVol / pau <= MAX_FAT16 || szVol / pau > MAX_FAT32 {
          return MKFS_ABORTED, p;
        }
      } else if pau == 0 {
        pau := AutoCluster(CST, szVol / 0x1000);
      }
      p := PlanFor(fsty, pau, szVol, nFat, nRoot, blk);
      HalfPow2(pau);
      PlanAgain(fsty, pau, szVol, nFat, nRoot, blk);
      if szVol < Unaligned(fsty, pau, szVol, nFat, nRoot) + pau * 16 {
        return MKFS_ABORTED, p;
      }
      if p.fsty == FAT32 && p.nClst <= MAX_FAT16 {
        if szAu == 0 && pau / 2 != 0 {
          szAu := pau / 2;
          continue;
        }
        return MKFS_ABORTED, p;
      }
      if p.fsty == FAT16 {
        if p.nClst > MAX_FAT16 {
          if szAu == 0 && pau * 2 <= 64 {
            szAu := pau * 2;
            continue;
          }
          if opt.fat32 {
            fsty := FAT32;
            continue;
          }
          if szAu == 0 && pau * 2 <= 128 {
            szAu := pau * 2;
            continue;
          }
          return MKFS_ABORTED, p;
        }
        if p.nClst <= MAX_FAT12 {
          if szAu == 0 && pau * 2 <= 128 {
            szAu := pau * 2;
            continue;
          }
          return MKFS_ABORTED, p;
        }
      }
      if p.fsty == FAT12 && p.nClst > MAX_FAT12 {
        return MKFS_ABORTED, p;
      }
      RoundAccepted(fsty, szAu, pau, szVol, opt, blk);
      break;
    }
    res := OK;
  }

  lemma RoundAccepted(fsty: FsType, szAu: nat, pau: nat, szVol: nat, opt: Options, blk: nat)
    requires (fsty == FAT16 || fsty == FAT32) && 1 <= pau <= 128 && Pow2OrZero(pau) && 1 <= blk <= 0x8000 && 128 <= szVol < WRAP
    requires fsty == FAT32 ==> MAX_FAT16 < szVol / pau <= MAX_FAT32
    requires szVol >= Unaligned(fsty, pau, szVol, Fats(opt), RootEntries(opt)) + pau * 16
    requires Decide(PlanFor(fsty, pau, szVol, Fats(opt), RootEntries(opt), blk), fsty, szAu, pau, opt.fat32) == Accept
    ensures Accepted(PlanFor(fsty, pau, szVol, Fats(opt), RootEntries(opt), blk), szVol, blk)
  {
    hide PlanFor, Unaligned, Pow2OrZero;
    PlanAgain(fsty, pau, szVol, Fats(opt), RootEntries(opt), blk);
  }

  lemma {:induction false} AutoBound(table: seq<nat>, n: nat, i: nat)
    requires |table| == 7 && table[6] == 0 && i <= 6
    ensures 1 <= AutoSize(table, n, i, Pow2(i)) <= 64 && Pow2OrZero(AutoSize(table, n, i, Pow2(i)))
    decreases 6 - i
  {
    Pow2Small(i);
    if i < 6 {
      AutoBound(table, n, i + 1);
    }
  }

  /** Every layout that the loop ends with, for any request, is an accepted one. */
  lemma {:induction false} LayoutAccepted(fsty: FsType, szAu: nat, szVol: nat, opt: Options, blk: nat)
    requires (fsty == FAT16 || fsty == FAT32) && szAu <= 128 && Pow2OrZero(szAu) && 1 <= blk <= 0x8000 && 128 <= szVol < WRAP
    ensures LayoutFrom(fsty, szAu, szVol, opt, blk).Some? ==>
              var p := LayoutFrom(fsty, szAu, szVol, opt, blk).value;
              Accepted(p, szVol, blk) && p.nFat == Fats(opt) && p.nRoot == RootEntries(opt)
    decreases fsty == FAT16, szAu == 0
  {
    hide PlanFor, Unaligned, Pow2OrZero, Accepted, AutoSize;
    assert Pow2(0) == 1;
    AutoBound(CST, szVol / 0x1000, 0);
    AutoBound(CST32, szVol / 0x2_0000, 0);
    var pau := ClusterSectors(fsty, szAu, szVol);
    var p := PlanFor(fsty, pau, szVol, Fats(opt), RootEntries(opt), blk);
    if !(fsty == FAT32 && (szVol / pau <= MAX_FAT16 || szVol / pau > MAX_FAT32))
       && szVol >= Unaligned(fsty, pau, szVol, Fats(opt), RootEntries(opt)) + pau * 16 {
      PlanAgain(fsty, pau, szVol, Fats(opt), RootEntries(opt), blk);
      HalfPow2(pau);
      match Decide(p, fsty, szAu, pau, opt.fat32) {
        case Accept => RoundAccepted(fsty, szAu, pau, szVol, opt, blk);
        case Abort =>
        case Retry(t, au) => LayoutAccepted(t, au, szVol, opt, blk);
      }
    }
  }

  lemma RequestedAccepted(szVol: nat, opt: Options, drive: nat)
    ensures Requested(szVol, opt, drive).Some? ==>
              var p := Requested(szVol, opt, drive).value;
              Accepted(p, szVol, BlockSectors(opt, drive)) && p.nFat == Fats(opt) && p.nRoot == RootEntries(opt)
  {
    hide LayoutFrom, Accepted, AuSectors, BlockSectors;
    if 128 <= szVol < WRAP && (opt.fat || opt.fat32) {
      LayoutAccepted(if opt.fat then FAT16 else FAT32, AuSectors(opt), szVol, opt, BlockSectors(opt, drive));
    }
  }

  // The system area of a plan is the one asked for, moved up to the next erase block.
  lemma AlignedArea(fsty: FsType, pau: nat, szVol: nat, nFat: nat, nRoot: nat, blk: nat)
    requires pau > 0 && blk > 0 && 1 <= nFat <= 2
    ensures var area := Unaligned(fsty, pau, szVol, nFat, nRoot);
            PlanFor(fsty, pau, szVol, nFat, nRoot, blk).System() == area + Gap(area, blk)
  {
    hide FatSectors, Gap;
  }

  /** What makes a layout right: FATs and root directory within the volume, clusters counted by
      the rest, the type determined by their number, a FAT with an entry for every cluster, and
      numbers that fit the fields of the boot sector. */
  ghost predicate Sound(p: Plan, szVol: nat) {
    && 1 <= p.pau <= 128 && Pow2OrZero(p.pau) && 1 <= p.nFat <= 2 && 16 <= p.nRoot <= 32768 && p.nRoot % 16 == 0
    && 128 <= szVol < WRAP && p.System() <= szVol && p.nClst == (szVol - p.System()) / p.pau <= MAX_FAT32
    && p.fsty == TypeOf(p.nClst)
    && FatBytesNeeded(p.fsty, p.nClst + 2) <= p.fat * 512
    && p.dir == (if p.fsty == FAT32 then 0 else p.nRoot / 16)
    && 1 <= p.rsv < 0x1_0000 && (p.fsty == FAT32 ==> p.rsv >= 32) && 0 < p.fat && (p.fsty != FAT32 ==> p.fat < 0x1_0000)
  }

  // (n + 511) / 512 sectors hold n bytes, and at most one sector more than needed.
  lemma Sectors(n: nat)
    ensures n <= (n + 511) / 512 * 512 <= n + 511
  {
  }

  lemma GapRange(x: nat, blk: nat)
    requires 1 <= blk <= 0x8000
    ensures Gap(x, blk) < 0x8000
  {
  }

  lemma LowerMod(n: nat)
    ensures n % WRAP <= n
  {
  }

  lemma FatSectors16(x: nat)
    requires x < WRAP
    ensures FatSectors(FAT16, x) * 256 <= x + 258 && FatSectors(FAT16, x) <= 0x80_0001
    ensures x < 0x7FFF_FE00 ==> FatSectors(FAT16, x) * 256 >= x + 2
  {
    LowerMod(x * 2 + 4);
    LowerMod((x * 2 + 4) % WRAP + 511);
    if x < 0x7FFF_FE00 {
      SmallMod(x * 2 + 4, WRAP);
      SmallMod(x * 2 + 4 + 511, WRAP);
      Sectors(x * 2 + 4);
    }
  }

  lemma FatSectors12(x: nat)
    requires x <= MAX_FAT12
    ensures FatBytesNeeded(FAT12, x + 2) <= FatSectors(FAT12, x) * 512 && FatSectors(FAT12, x) <= 13
  {
    SmallMod(x * 3 + 1, WRAP);
    Sectors((x * 3 + 1) / 2 + 3);
    assert (x + 2) * 3 / 2 + (x + 2) % 2 == (x * 3 + 1) / 2 + 3;
  }

  lemma FatSectors32(x: nat)
    requires x <= MAX_FAT32
    ensures FatSectors(FAT32, x) * 128 >= x + 2 && FatSectors(FAT32, x) * 128 <= x + 130
  {
    SmallMod(x * 4 + 8 + 511, WRAP);
    Sectors(x * 4 + 8);
  }

  // Clusters left of the system area, in 32-bit arithmetic.
  lemma ClusterCount(szVol: nat, sys: nat, pau: nat)
    requires szVol < WRAP && sys < 0x1000_0000 && 1 <= pau <= 128
    ensures var n := (szVol - sys) % WRAP / pau;
            if sys <= szVol then n == (szVol - sys) / pau else n > MAX_FAT16
    ensures sys <= szVol ==> szVol / pau <= (szVol - sys) / pau + sys + 1 && (szVol - sys) / pau <= szVol / pau
  {
    if sys <= szVol {
      SmallMod(szVol - sys, WRAP);
      QuotientGap(szVol, sys, pau);
    } else {
      DivUnique(szVol - sys, WRAP, -1, szVol - sys + WRAP);
      AtLeast(szVol - sys + WRAP, pau);
    }
  }

  lemma AtLeast(n: nat, pau: nat)
    requires 1 <= pau <= 128 && n >= 0xE000_0000
    ensures n / pau > MAX_FAT16
  {
    var q := n / pau;
    assert n < pau * (q + 1) by { MulSucc(pau, q); }
    MulLe(MAX_FAT16 + 1, pau, 128);
    if q <= MAX_FAT16 {
      MulLe(pau, q + 1, MAX_FAT16 + 1);
    }
  }

  lemma QuotientGap(a: nat, b: nat, pau: nat)
    requires b <= a && pau >= 1
    ensures a / pau <= (a - b) / pau + b + 1 && (a - b) / pau <= a / pau
  {
    var q, r := (a - b) / pau, a / pau;
    MulSucc(pau, q);
    assert a - b < pau * (q + 1);
    MulLe(b, 1, pau);
    assert pau * (q + 1 + b) == pau * (q + 1) + pau * b;
    assert a < pau * (q + 1 + b) by { assert pau * b == b * pau >= b; }
    MulLtInv(pau, r, q + 1 + b);
    MulSucc(pau, r);
    MulLtInv(pau, q, r + 1);
  }

  // The parts of a plan that was made for its own type.
  lemma PlanParts(p: Plan, szVol: nat, blk: nat)
    requires Accepted(p, szVol, blk)
    ensures var x, n, t := szVol / p.pau, Gap(Unaligned(p.fsty, p.pau, szVol, p.nFat, p.nRoot), blk), p.fsty;
            && SubType(t, x) == t
            && (t == FAT32 ==> p.rsv == 32 + n && p.fat == FatSectors(FAT32, x) && p.dir == 0)
            && (t != FAT32 ==> 1 <= p.rsv <= 2 && FatSectors(t, x) <= p.fat <= FatSectors(t, x) + n && p.dir == p.nRoot / 16)
            && p.nClst == (szVol - p.System()) % WRAP / p.pau
  {
    hide FatSectors, Gap;
    assert p.nRoot * 32 / 512 == p.nRoot / 16;
    var x := szVol / p.pau;
    var n := Gap(Unaligned(p.fsty, p.pau, szVol, p.nFat, p.nRoot), blk);
    assert p.nFat == 1 || p.nFat == 2;
    assert szVol - p.rsv - p.fat * p.nFat - p.dir == szVol - p.System();
  }

  lemma FatsTotal(fat: nat, nFat: nat)
    requires 1 <= nFat <= 2
    ensures fat <= fat * nFat <= 2 * fat
  {
    assert nFat == 1 || nFat == 2;
  }

  lemma Sound32(p: Plan, szVol: nat, blk: nat)
    requires Accepted(p, szVol, blk) && p.fsty == FAT32
    ensures Sound(p, szVol)
  {
    hide Pow2OrZero, PlanFor, Unaligned, FatSectors, Gap;
    var x := szVol / p.pau;
    PlanParts(p, szVol, blk);
    GapRange(Unaligned(p.fsty, p.pau, szVol, p.nFat, p.nRoot), blk);
    FatSectors32(x);
    FatsTotal(p.fat, p.nFat);
    AtMost(szVol, p.pau);
    ClusterCount(szVol, p.System(), p.pau);
  }

  lemma AtMost(n: nat, pau: nat)
    requires pau >= 1
    ensures n / pau <= n
  {
    MulLe(n / pau, 1, pau);
    assert pau * (n / pau) <= n;
  }

  // The layout of a FAT12 or FAT16 volume whose FAT takes between f and f + 0x7FFF sectors.
  lemma SoundSmall(p: Plan, szVol: nat, blk: nat, x: nat, f: nat)
    requires p.pau > 0 && x == szVol / p.pau && Accepted(p, szVol, blk) && p.fsty != FAT32 && f == FatSectors(p.fsty, x)
    requires f <= 0x80_0001 && (p.fsty == FAT12 ==> f <= 13) && (p.fsty == FAT16 ==> f * 256 <= x + 258)
    ensures p.System() <= szVol && p.nClst == (szVol - p.System()) / p.pau <= x < 0x10_0000
    ensures 1 <= p.rsv <= 2 && f <= p.fat < 0x1_0000 && p.dir == p.nRoot / 16
  {
    hide Pow2OrZero, PlanFor, Unaligned, FatSectors, Gap;
    PlanParts(p, szVol, blk);
    GapRange(Unaligned(p.fsty, p.pau, szVol, p.nFat, p.nRoot), blk);
    FatsTotal(p.fat, p.nFat);
    ClusterCount(szVol, p.System(), p.pau);
  }

  lemma Sound16(p: Plan, szVol: nat, blk: nat)
    requires Accepted(p, szVol, blk) && p.fsty != FAT32
    ensures Sound(p, szVol)
  {
    hide Pow2OrZero, PlanFor, Unaligned, FatSectors, Gap;
    var x := szVol / p.pau;
    AtMost(szVol, p.pau);
    PlanParts(p, szVol, blk);
    if p.fsty == FAT16 {
      FatSectors16(x);
    } else {
      FatSectors12(x);
    }
    SoundSmall(p, szVol, blk, x, FatSectors(p.fsty, x));
    NeededMore(p.fsty, p.nClst + 2, x + 2);
  }

  lemma {:induction false} NeededMore(t: FsType, m: nat, n: nat)
    requires m <= n
    ensures FatBytesNeeded(t, m) <= FatBytesNeeded(t, n)
    decreases n - m
  {
    if t == FAT12 && m < n {
      assert m * 3 / 2 + m % 2 <= (m + 1) * 3 / 2 + (m + 1) % 2;
      NeededMore(t, m + 1, n);
    }
  }

  /** Every layout that the loop accepts is sound. */
  lemma AcceptedIsSound(p: Plan, szVol: nat, blk: nat)
    requires Accepted(p, szVol, blk)
    ensures Sound(p, szVol)
  {
    if p.fsty == FAT32 {
      Sound32(p, szVol, blk);
    } else {
      Sound16(p, szVol, blk);
    }
  }

  /** The automatic cluster size, in sectors, by the size of the volume: for FAT12 and FAT16 doubled at 2, 8,
      32, 128 and 512 MiB and at 1 GiB, for FAT32 at every doubling from 64 MiB to 2 GiB. */
  lemma ClusterBands(szVol: nat)
    ensures var mib := szVol / 2048;
            && ClusterSectors(FAT16, 0, szVol)
               == (if mib < 2 then 1 else if mib < 8 then 2 else if mib < 32 then 4 else if mib < 128 then 8
                   else if mib < 512 then 16 else if mib < 1024 then 32 else 64)
            && ClusterSectors(FAT32, 0, szVol)
               == (if mib < 64 then 1 else if mib < 128 then 2 else if mib < 256 then 4 else if mib < 512 then 8
                   else if mib < 1024 then 16 else if mib < 2048 then 32 else 64)
  {
    AutoBands(szVol / 0x1000);
    AutoBands32(szVol / 0x2_0000);
  }

  lemma AutoBands(n: nat)
    ensures AutoSize(CST, n, 0, 1)
            == (if n < 1 then 1 else if n < 4 then 2 else if n < 16 then 4 else if n < 64 then 8
                else if n < 256 then 16 else if n < 512 then 32 else 64)
  {
    AutoStep(CST, n, 5, 32);
    AutoStep(CST, n, 4, 16);
    AutoStep(CST, n, 3, 8);
    AutoStep(CST, n, 2, 4);
    AutoStep(CST, n, 1, 2);
    AutoStep(CST, n, 0, 1);
    AutoStep(CST, n, 6, 64);
  }

  lemma AutoBands32(n: nat)
    ensures AutoSize(CST32, n, 0, 1)
            == (if n < 1 then 1 else if n < 2 then 2 else if n < 4 then 4 else if n < 8 then 8
                else if n < 16 then 16 else if n < 32 then 32 else 64)
  {
    AutoStep(CST32, n, 5, 32);
    AutoStep(CST32, n, 4, 16);
    AutoStep(CST32, n, 3, 8);
    AutoStep(CST32, n, 2, 4);
    AutoStep(CST32, n, 1, 2);
    AutoStep(CST32, n, 0, 1);
    AutoStep(CST32, n, 6, 64);
  }

  lemma AutoStep(table: seq<nat>, n: nat, i: nat, pau: nat)
    requires i < |table|
    ensures AutoSize(table, n, i, pau) == if table[i] != 0 && table[i] <= n then AutoSize(table, n, i + 1, pau * 2) else pau
  {
  }

  // p has the cluster size szAu, or one that follows from the size of the volume.
  ghost predicate ClusterOf(p: Plan, fsty: FsType, szAu: nat, szVol: nat) {
    var a, b := ClusterSectors(FAT16, 0, szVol), ClusterSectors(FAT32, 0, szVol);
    && (szAu > 0 ==> p.pau == szAu)
    && (szAu == 0 ==>
          if p.fsty != FAT32 then p.pau == a || p.pau == a * 2
          else p.pau == b || p.pau == b / 2 || (fsty == FAT16 && p.pau == a * 2))
  }

  lemma {:induction false} LayoutCluster(fsty: FsType, szAu: nat, szVol: nat, opt: Options, blk: nat)
    requires (fsty == FAT16 || fsty == FAT32) && blk > 0
    ensures LayoutFrom(fsty, szAu, szVol, opt, blk).Some? ==>
              var p := LayoutFrom(fsty, szAu, szVol, opt, blk).value;
              && ClusterOf(p, fsty, szAu, szVol) && (fsty == FAT32 ==> p.fsty == FAT32) && (p.fsty == FAT32 && fsty == FAT16 ==> opt.fat32)
              && p.System() % blk == 0
    decreases fsty == FAT16, szAu == 0
  {
    hide PlanFor, Unaligned, AutoSize, Gap, Plan.System;
    var pau := ClusterSectors(fsty, szAu, szVol);
    var p := PlanFor(fsty, pau, szVol, Fats(opt), RootEntries(opt), blk);
    PlanAgain(fsty, pau, szVol, Fats(opt), RootEntries(opt), blk);
    AlignedArea(fsty, pau, szVol, Fats(opt), RootEntries(opt), blk);
    GapAligns(Unaligned(fsty, pau, szVol, Fats(opt), RootEntries(opt)), blk);
    match Decide(p, fsty, szAu, pau, opt.fat32) {
      case Accept =>
      case Abort =>
      case Retry(t, au) => LayoutCluster(t, au, szVol, opt, blk);
    }
  }

  lemma GapAligns(x: nat, blk: nat)
    requires blk > 0
    ensures (x + Gap(x, blk)) % blk == 0
  {
    if x % blk != 0 {
      MulSucc(blk, x / blk);
      DivUnique(x + Gap(x, blk), blk, x / blk + 1, 0);
    }
  }

  /** Every layout that f_mkfs settles on puts the data area at an erase block, and FAT32 only where it is
      allowed; it has the cluster size asked for, or the automatic one for the size of the volume, doubled
      or halved once to get the number of clusters right. */
  lemma RequestedAligned(szVol: nat, opt: Options, drive: nat)
    ensures Requested(szVol, opt, drive).Some? ==>
              var p := Requested(szVol, opt, drive).value;
              && p.System() % BlockSectors(opt, drive) == 0
              && (p.fsty == FAT32 ==> opt.fat32) && (p.fsty != FAT32 ==> opt.fat)
              && ClusterOf(p, if opt.fat then FAT16 else FAT32, AuSectors(opt), szVol)
  {
    hide LayoutFrom, AuSectors, BlockSectors, ClusterOf, Gap, Unaligned;
    if Requested(szVol, opt, drive).Some? {
      LayoutCluster(if opt.fat then FAT16 else FAT32, AuSectors(opt), szVol, opt, BlockSectors(opt, drive));
    }
  }

  // The clusters left of a system area, in 32-bit arithmetic.
  function Left(szVol: nat, sys: nat, pau: nat): nat
    requires pau > 0
  {
    (szVol - sys) % WRAP / pau
  }

  lemma PlanCount(p: Plan, fsty: FsType, pau: nat, szVol: nat, nFat: nat, nRoot: nat, blk: nat)
    requires pau > 0 && blk > 0 && 1 <= nFat <= 2
    ensures p == PlanFor(fsty, pau, szVol, nFat, nRoot, blk) ==>
              p.fsty == SubType(fsty, szVol / pau) && p.nClst == Left(szVol, p.System(), pau)
  {
    hide FatSectors, Gap, SubType;
    assert nFat == 1 || nFat == 2;
    assert szVol - p.rsv - p.fat * p.nFat - p.dir == szVol - p.System();
  }

  // What the system area and the clusters come to, from bounds on the FAT size.
  lemma PlanBounds(fsty: FsType, pau: nat, szVol: nat, nFat: nat, nRoot: nat, blk: nat, f: nat)
    requires 1 <= pau <= 128 && 1 <= blk <= 64 && 1 <= nFat <= 2 && nRoot <= 512 && szVol < WRAP
    requires FatSectors(SubType(fsty, szVol / pau), szVol / pau) <= f < 0x80_0000 && 97 + 2 * f <= szVol
    ensures var p, x := PlanFor(fsty, pau, szVol, nFat, nRoot, blk), szVol / pau;
            && p.fsty == SubType(fsty, x) && p.nClst <= x
            && x * pau <= p.nClst * pau + 97 + 2 * f + pau
            && Unaligned(fsty, pau, szVol, nFat, nRoot) <= 34 + 2 * f
  {
    hide FatSectors, Gap, SubType, PlanFor, Unaligned, Left, Plan.System;
    var p := PlanFor(fsty, pau, szVol, nFat, nRoot, blk);
    PlanCount(p, fsty, pau, szVol, nFat, nRoot, blk);
    AlignedArea(fsty, pau, szVol, nFat, nRoot, blk);
    UnalignedBound(fsty, pau, szVol, nFat, nRoot, f);
    LeftBounds(szVol, p.System(), pau);
  }

  lemma UnalignedBound(fsty: FsType, pau: nat, szVol: nat, nFat: nat, nRoot: nat, f: nat)
    requires pau > 0 && 1 <= nFat <= 2 && nRoot <= 512 && FatSectors(SubType(fsty, szVol / pau), szVol / pau) <= f
    ensures Unaligned(fsty, pau, szVol, nFat, nRoot) <= 34 + 2 * f
  {
    hide FatSectors, SubType;
    FatsTotal(FatSectors(SubType(fsty, szVol / pau), szVol / pau), nFat);
  }

  lemma LeftBounds(szVol: nat, sys: nat, pau: nat)
    requires sys <= szVol < WRAP && sys < 0x1000_0000 && 1 <= pau <= 128
    ensures Left(szVol, sys, pau) <= szVol / pau && szVol / pau * pau <= Left(szVol, sys, pau) * pau + sys + pau
  {
    ClusterCount(szVol, sys, pau);
    CountBelow(szVol, sys, pau);
  }

  lemma CountBelow(a: nat, b: nat, pau: nat)
    requires b <= a && pau >= 1
    ensures a / pau * pau <= (a - b) / pau * pau + b + pau
  {
    MulSucc(pau, (a - b) / pau);
    assert a - b < pau * ((a - b) / pau + 1);
  }

  // A round with few clusters ends with a FAT12 volume.
  lemma Round12(szAu: nat, szVol: nat, opt: Options, blk: nat)
    requires 1 <= blk <= 64 && RootEntries(opt) <= 512 && 128 <= szVol < WRAP
    requires var pau := ClusterSectors(FAT16, szAu, szVol); pau <= 128 && szVol / pau <= MAX_FAT12 && (pau == 1 || szVol / pau >= 1000)
    ensures LayoutFrom(FAT16, szAu, szVol, opt, blk).Some?
    ensures szVol > 128 ==> LayoutFrom(FAT16, szAu, szVol, opt, blk).value.nClst > 0
  {
    hide PlanFor, Unaligned, Gap, AutoSize, ClusterSectors, FatSectors, SubType;
    Plan12(ClusterSectors(FAT16, szAu, szVol), szVol, Fats(opt), RootEntries(opt), blk);
  }

  lemma Plan12(pau: nat, szVol: nat, nFat: nat, nRoot: nat, blk: nat)
    requires 1 <= pau <= 128 && 1 <= blk <= 64 && 1 <= nFat <= 2 && nRoot <= 512 && 128 <= szVol < WRAP
    requires szVol / pau <= MAX_FAT12 && (pau == 1 || szVol / pau >= 1000)
    ensures var p := PlanFor(FAT16, pau, szVol, nFat, nRoot, blk);
            && p.fsty == FAT12 && p.nClst <= MAX_FAT12 && Unaligned(FAT16, pau, szVol, nFat, nRoot) + pau * 16 <= szVol
            && (szVol > 128 ==> p.nClst > 0)
  {
    var x := szVol / pau;
    hide PlanFor, Unaligned, Gap, FatSectors;
    FatSectors12(x);
    Few12(x);
    AtLeastTimes(szVol, pau);
    var f := FatSectors(FAT12, x);
    PlanBounds(FAT16, pau, szVol, nFat, nRoot, blk, f);
    NoLess(x, PlanFor(FAT16, pau, szVol, nFat, nRoot, blk).nClst, 97 + 2 * f, pau);
  }

  lemma Few12(x: nat)
    requires x <= MAX_FAT12
    ensures FatSectors(FAT12, x) * 512 <= x + x / 2 + 516
  {
    SmallMod(x * 3 + 1, WRAP);
    Sectors((x * 3 + 1) / 2 + 3);
  }

  lemma AtLeastTimes(szVol: nat, pau: nat)
    requires pau > 0
    ensures pau * (szVol / pau) <= szVol && (pau == 1 ==> szVol / pau == szVol)
    ensures szVol / pau >= 1000 ==> szVol >= 1000 * pau
  {
    if szVol / pau >= 1000 {
      MulLe(pau, 1000, szVol / pau);
    }
  }

  // A round with enough clusters for FAT16.
  lemma Plan16(pau: nat, szVol: nat, nFat: nat, nRoot: nat, blk: nat)
    requires 1 <= pau <= 128 && 1 <= blk <= 64 && 1 <= nFat <= 2 && nRoot <= 512 && szVol < WRAP
    requires MAX_FAT12 < szVol / pau < 0x400_0000
    ensures var p, x := PlanFor(FAT16, pau, szVol, nFat, nRoot, blk), szVol / pau;
            && p.fsty == FAT16 && p.nClst <= x && x <= p.nClst + x / 128 + 101
            && Unaligned(FAT16, pau, szVol, nFat, nRoot) + pau * 16 <= szVol
  {
    hide PlanFor, Unaligned, FatSectors;
    var x := szVol / pau;
    FatSectors16(x);
    AtLeastTimes(szVol, pau);
    var f := FatSectors(FAT16, x);
    MulLe(x, 1, pau);
    PlanBounds(FAT16, pau, szVol, nFat, nRoot, blk, f);
    NoLess(x, PlanFor(FAT16, pau, szVol, nFat, nRoot, blk).nClst, 97 + 2 * f, pau);
  }

  lemma NoLess(x: nat, n: nat, c: nat, pau: nat)
    requires pau >= 1 && x * pau <= n * pau + c + pau
    ensures x <= n + c + 1
  {
    if x > n + c + 1 {
      MulLe(pau, n + c + 2, x);
      MulLe(c + 2, 1, pau);
      assert pau * (n + c + 2) == n * pau + (c + 2) * pau;
      assert (c + 2) * pau == c * pau + 2 * pau;
      MulLe(c, 1, pau);
    }
  }

  lemma Round16(szAu: nat, szVol: nat, opt: Options, blk: nat)
    requires 1 <= blk <= 64 && RootEntries(opt) <= 512 && szVol < WRAP && 1 <= szAu <= 128 && 5000 <= szVol / szAu <= MAX_FAT16
    ensures LayoutFrom(FAT16, szAu, szVol, opt, blk).Some? && LayoutFrom(FAT16, szAu, szVol, opt, blk).value.nClst > 0
  {
    hide PlanFor, Unaligned, AutoSize;
    Plan16(szAu, szVol, Fats(opt), RootEntries(opt), blk);
  }

  // A round for a FAT32 volume from 2 GiB on.
  lemma Plan32(pau: nat, szVol: nat, nFat: nat, nRoot: nat, blk: nat)
    requires (pau == 32 || pau == 64) && 1 <= blk <= 64 && 1 <= nFat <= 2 && nRoot <= 512 && szVol < WRAP
    requires szVol >= 0x3F_FD80 && (pau == 64 ==> szVol >= 0x40_0000)
    ensures var p, x := PlanFor(FAT32, pau, szVol, nFat, nRoot, blk), szVol / pau;
            && p.fsty == FAT32 && MAX_FAT16 < x <= MAX_FAT32 && (pau == 32 ==> p.nClst > MAX_FAT16)
            && Unaligned(FAT32, pau, szVol, nFat, nRoot) + pau * 16 <= szVol
  {
    hide PlanFor, Unaligned, FatSectors;
    var x := szVol / pau;
    assert MAX_FAT16 < x < 0x800_0000;
    FatSectors32(x);
    PlanBounds(FAT32, pau, szVol, nFat, nRoot, blk, FatSectors(FAT32, x));
  }

  lemma Round32(szAu: nat, szVol: nat, opt: Options, blk: nat)
    requires 1 <= blk <= 64 && RootEntries(opt) <= 512 && 0x3F_FD80 <= szVol < WRAP && (szAu == 0 || szAu == 32)
    ensures LayoutFrom(FAT32, szAu, szVol, opt, blk).Some? && LayoutFrom(FAT32, szAu, szVol, opt, blk).value.nClst > 0
    decreases szAu == 0
  {
    ClusterBands(szVol);
    hide PlanFor, Unaligned, AutoSize;
    var pau := ClusterSectors(FAT32, szAu, szVol);
    assert pau == 32 || (pau == 64 && szVol >= 0x40_0000);
    Plan32(pau, szVol, Fats(opt), RootEntries(opt), blk);
    if PlanFor(FAT32, pau, szVol, Fats(opt), RootEntries(opt), blk).nClst <= MAX_FAT16 {
      Round32(32, szVol, opt, blk);
    }
  }

  /** With FAT and FAT32 allowed, the cluster size left open, at most 512 root entries and erase blocks of at most
      64 sectors, f_mkfs finds a layout for every volume from 128 to 2^32 - 1 sectors, and one with clusters
      unless it has no more than 128. */
  lemma AnySizeRequested(szVol: nat, opt: Options, drive: nat)
    requires opt.fat && opt.fat32 && AuSectors(opt) == 0 && RootEntries(opt) <= 512 && BlockSectors(opt, drive) <= 64
    requires 128 <= szVol < WRAP
    ensures Requested(szVol, opt, drive).Some? && (szVol > 128 ==> Requested(szVol, opt, drive).value.nClst > 0)
  {
    ClusterBands(szVol);
    hide PlanFor, Unaligned, AutoSize, BlockSectors, RootEntries, Fats, AuSectors, ClusterSectors, LayoutFrom;
    var blk := BlockSectors(opt, drive);
    var pau := ClusterSectors(FAT16, 0, szVol);
    var x := szVol / pau;
    if x <= MAX_FAT12 {
      Round12(0, szVol, opt, blk);
    } else {
      FirstRound16(szVol, opt, blk);
    }
  }

  lemma Given(szAu: nat, szVol: nat)
    ensures szAu > 0 ==> ClusterSectors(FAT16, szAu, szVol) == szAu
  {
  }

  lemma FirstRound16(szVol: nat, opt: Options, blk: nat)
    requires opt.fat32 && RootEntries(opt) <= 512 && 1 <= blk <= 64 && szVol < WRAP
    requires szVol / ClusterSectors(FAT16, 0, szVol) > MAX_FAT12
    ensures LayoutFrom(FAT16, 0, szVol, opt, blk).Some? && LayoutFrom(FAT16, 0, szVol, opt, blk).value.nClst > 0
  {
    ClusterBands(szVol);
    hide PlanFor, Unaligned, AutoSize, RootEntries, Fats, ClusterSectors;
    var pau := ClusterSectors(FAT16, 0, szVol);
    var x := szVol / pau;
    assert x < 0x400_0000 && (pau < 64 ==> x < 0x1_0000);
    Plan16(pau, szVol, Fats(opt), RootEntries(opt), blk);
    var n := PlanFor(FAT16, pau, szVol, Fats(opt), RootEntries(opt), blk).nClst;
    DivDiv(szVol, pau, 2);
    AtLeastTimes(szVol, pau);
    Given(pau * 2, szVol);
    if n <= MAX_FAT12 {
      Round12(pau * 2, szVol, opt, blk);
    } else if n > MAX_FAT16 && pau * 2 <= 64 {
      Round16(pau * 2, szVol, opt, blk);
    } else if n > MAX_FAT16 {
      Round32(0, szVol, opt, blk);
    }
  }
}
