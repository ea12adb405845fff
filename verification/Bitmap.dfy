/** The allocation bitmap of an exFAT volume: searching it for free clusters
    and flipping runs of bits. Bit i stands for cluster i + 2. */
module Bitmap {
  import opened Arith
  import opened Bytes
  import opened Layout
  import opened FatTable
  import opened Volume

  // Position x of a scan that wraps around after n bits.
  function Wrap(x: nat, n: nat): nat {
    if x < n then x else x - n
  }

  /** The k bits from position p on are all clear, going round at the end. */
  ghost predicate FreeRun(bits: seq<bool>, p: nat, k: nat)
    requires p + k <= 2 * |bits|
  {
    forall x :: p <= x < p + k ==> !bits[Wrap(x, |bits|)]
  }

  /** What a scan over all bits from start on must answer when it looks for k clear
      ones in a row: the first such run of the scan, 0 if there is none. */
  ghost predicate FirstRun(bits: seq<bool>, start: nat, k: nat, r: dword)
    requires start < |bits|
  {
    if r == 0 then forall p :: start <= p && p + k <= start + |bits| ==> !FreeRun(bits, p, k)
    else exists p :: IsFirstRun(bits, start, k, p) && r == Wrap(p, |bits|) + 2
  }

  ghost predicate IsFirstRun(bits: seq<bool>, start: nat, k: nat, p: nat)
    requires start < |bits|
  {
    && start <= p && p + k <= start + |bits| && FreeRun(bits, p, k)
    && forall p' :: start <= p' < p ==> !FreeRun(bits, p', k)
  }

  // No clear run of length k lies within the q bits scanned.
  ghost predicate NoRunYet(bits: seq<bool>, start: nat, k: nat, q: nat)
    requires start < |bits| && q <= |bits|
  {
    forall p :: start <= p && p + k <= start + q ==> !FreeRun(bits, p, k)
  }

  // The last ctr of the q bits scanned are clear, and the one before them is not.
  ghost predicate Counted(bits: seq<bool>, start: nat, q: nat, ctr: nat)
    requires start < |bits| && ctr <= q <= |bits|
  {
    && FreeRun(bits, start + q - ctr, ctr)
    && (ctr == q || bits[Wrap(start + q - ctr - 1, |bits|)])
  }

  lemma CountOn(bits: seq<bool>, start: nat, k: nat, q: nat, ctr: nat)
    requires start < |bits| && ctr <= q < |bits| && ctr < k
    requires Counted(bits, start, q, ctr) && NoRunYet(bits, start, k, q)
    ensures bits[Wrap(start + q, |bits|)] ==> Counted(bits, start, q + 1, 0) && NoRunYet(bits, start, k, q + 1)
    ensures !bits[Wrap(start + q, |bits|)] ==> Counted(bits, start, q + 1, ctr + 1)
    ensures !bits[Wrap(start + q, |bits|)] && ctr + 1 < k ==> NoRunYet(bits, start, k, q + 1)
    ensures !bits[Wrap(start + q, |bits|)] && ctr + 1 == k ==> IsFirstRun(bits, start, k, start + q - ctr)
  {
    var last := start + q;
    forall p | start <= p && p + k == start + q + 1 && (bits[Wrap(last, |bits|)] || ctr + 1 < k)
      ensures !FreeRun(bits, p, k)
    {
      var x := if bits[Wrap(last, |bits|)] then last else start + q - ctr - 1;
      assert p <= x < p + k && bits[Wrap(x, |bits|)];
    }
  }

  // Bring the bitmap sector of bit val into the window.
  method LoadBitmap(fs: FATFS, sect: nat) returns (res: FRESULT)
    requires fs.WindowOk() && fs.BitmapOk() && fs.g.bitbase <= sect < fs.g.bitbase + fs.g.BitmapSectors()
    modifies fs`disk, fs`faulted, fs`wflag, fs`winsect, fs.win
    ensures fs.WindowOk() && SameView(fs.g, old(fs.View()), fs.View())
    ensures fs.Fat() == old(fs.Fat()) && fs.Bits() == old(fs.Bits())
    ensures res == OK ==> fs.winsect == sect && fs.win[..] == fs.View()[sect]
    ensures res != OK ==> res == DISK_ERR && fs.faulted
    ensures old(fs.faulted) ==> fs.faulted
  {
    res := fs.MoveWindow(sect);
    FatInside(fs.g);
    SameRegion(old(fs.View()), fs.View(), fs.g.bitbase, fs.g.BitmapSectors());
  }

  // Bit val of the bitmap is bit number bm of byte i of sector s.
  ghost predicate BitPlace(g: Geometry, val: nat, s: nat, i: nat, bm: nat) {
    s == g.bitbase + val / 8 / SECTOR_SIZE && i == val / 8 % SECTOR_SIZE && bm == val % 8
  }

  lemma PlacedBit(g: Geometry, v: seq<Sector>, val: nat, s: nat, i: nat, bm: nat)
    requires g.Ok() && g.fsType == EXFAT && |v| == g.total && val < g.nFatent - 2 && BitPlace(g, val, s, i, bm)
    ensures g.bitbase <= s < g.bitbase + g.BitmapSectors() <= |v| && i < SECTOR_SIZE && bm < 8
    ensures BitOf(v[s][i], bm) <==> Bits(g, BitmapBytes(g, v))[val]
  {
    FatInside(g);
    DivDiv(val, 8, SECTOR_SIZE);
  }

  lemma NextPlace(g: Geometry, val: nat, s: nat, i: nat, bm: nat)
    requires BitPlace(g, val, s, i, bm)
    ensures bm < 7 ==> BitPlace(g, val + 1, s, i, bm + 1)
    ensures bm == 7 && i < SECTOR_SIZE - 1 ==> BitPlace(g, val + 1, s, i + 1, 0)
    ensures bm == 7 && i == SECTOR_SIZE - 1 ==> BitPlace(g, val + 1, s + 1, 0, 0)
  {
  }

  // Where find_bitmap starts looking.
  function ScanStart(g: Geometry, clst: dword): nat
    requires g.nFatent > 2
  {
    if g.IsCluster(clst) then clst - 2 else 0
  }

  // The variables of find_bitmap after scanning q bits without an answer.
  ghost predicate Scanning(bits: seq<bool>, start: nat, ncl: nat, q: nat, scl: nat, val: nat, ctr: nat) {
    && start < |bits| && q < |bits| && val == Wrap(start + q, |bits|)
    && ctr <= q && ctr < ncl && scl == Wrap(start + q - ctr, |bits|)
    && Counted(bits, start, q, ctr) && NoRunYet(bits, start, ncl, q)
  }

  lemma ScanBegins(bits: seq<bool>, start: nat, ncl: dword)
    requires start < |bits| && ncl > 0
    ensures Scanning(bits, start, ncl, 0, start, start, 0)
  {
  }

  // The do-while loops of find_bitmap: the bits of the sector in the window from val on.
  // They are one loop here, with bit number bm standing for the mask 1 << bm.
  method ScanSector(fs: FATFS, start: nat, ncl: dword, scl0: nat, val0: nat, ctr0: nat, ghost q0: nat)
    returns (done: bool, r: dword, scl: nat, val: nat, ctr: nat, ghost q: nat)
    requires fs.WindowOk() && fs.BitmapOk() && Scanning(fs.Bits(), start, ncl, q0, scl0, val0, ctr0)
    requires BitPlace(fs.g, val0, fs.winsect, val0 / 8 % SECTOR_SIZE, val0 % 8) && fs.winsect < |fs.View()|
    requires fs.win[..] == fs.View()[fs.winsect]
    ensures done ==> FirstRun(fs.Bits(), start, ncl, r) && r != IO_ERROR
    ensures !done ==> q0 < q && Scanning(fs.Bits(), start, ncl, q, scl, val, ctr)
  {
    hide BitOf, FatBytes, Overlaid, Mirrored, Scanning, FirstRun, BitmapBytes, BitPlace;
    scl, val, ctr, q := scl0, val0, ctr0, q0;
    var n := fs.g.nFatent - 2;
    var i: nat, bm: nat := val / 8 % SECTOR_SIZE, val % 8;
    while i < SECTOR_SIZE
      invariant i < SECTOR_SIZE ==> BitPlace(fs.g, val, fs.winsect, i, bm)
      invariant q0 <= q && (i >= SECTOR_SIZE ==> q0 < q) && Scanning(fs.Bits(), start, ncl, q, scl, val, ctr)
      decreases n - q
    {
      ScanStep(fs.Bits(), start, ncl, q, scl, val, ctr);
      PlacedBit(fs.g, fs.View(), val, fs.winsect, i, bm);
      NextPlace(fs.g, val, fs.winsect, i, bm);
      var bv := BitOf(fs.win[i], bm);
      bm := bm + 1;
      if bm == 8 {
        bm, i := 0, i + 1;
      }
      val := val + 1;
      q := q + 1;
      if val >= n {
        val, bm, i := 0, 0, SECTOR_SIZE;
      }
      if !bv {
        ctr := ctr + 1;
        if ctr == ncl {
          return true, scl + 2, scl, val, ctr, q;
        }
      } else {
        scl, ctr := val, 0;
      }
      if val == start {
        return true, 0, scl, val, ctr, q;
      }
    }
    done, r := false, 0;
  }

  lemma ScanStep(bits: seq<bool>, start: nat, ncl: dword, q: nat, scl: nat, val: nat, ctr: nat)
    requires Scanning(bits, start, ncl, q, scl, val, ctr) && |bits| < 0x8000_0000
    ensures q < |bits| && val < |bits| && scl < |bits|
    ensures var next := if val + 1 < |bits| then val + 1 else 0;
            if !bits[val] && ctr + 1 == ncl then FirstRun(bits, start, ncl, scl + 2)
            else if next == start then FirstRun(bits, start, ncl, 0)
            else if bits[val] then Scanning(bits, start, ncl, q + 1, next, next, 0)
            else Scanning(bits, start, ncl, q + 1, scl, next, ctr + 1)
  {
    hide Counted, FreeRun;
    CountOn(bits, start, ncl, q, ctr);
  }

  /** find_bitmap */
  method FindBitmap(fs: FATFS, clst: dword, ncl: dword) returns (r: dword)
    requires fs.WindowOk() && fs.BitmapOk() && ncl > 0
    modifies fs`disk, fs`faulted, fs`wflag, fs`winsect, fs.win
    ensures fs.WindowOk() && SameView(fs.g, old(fs.View()), fs.View())
    ensures fs.Fat() == old(fs.Fat()) && fs.Bits() == old(fs.Bits())
    ensures (r == IO_ERROR && fs.faulted) || FirstRun(fs.Bits(), ScanStart(fs.g, clst), ncl, r)
    ensures old(fs.faulted) ==> fs.faulted
  {
    hide FatBytes, Overlaid, Mirrored, Counted, NoRunYet, BitmapBytes;
    ghost var bits := fs.Bits();
    var start := if clst < 2 || clst - 2 >= fs.g.nFatent - 2 then 0 else clst - 2;
    var scl: nat, val: nat, ctr: nat := start, start, 0;
    ghost var q := 0;
    ScanBegins(bits, start, ncl);
    var done := false;
    r := 0;
    while !done
      invariant fs.WindowOk() && fs.BitmapOk() && SameView(fs.g, old(fs.View()), fs.View())
      invariant fs.Fat() == old(fs.Fat()) && fs.Bits() == bits && (old(fs.faulted) ==> fs.faulted)
      invariant if done then FirstRun(bits, start, ncl, r) else Scanning(bits, start, ncl, q, scl, val, ctr)
      decreases !done, |bits| - q
    {
      PlacedBit(fs.g, fs.View(), val, fs.g.bitbase + val / 8 / SECTOR_SIZE, val / 8 % SECTOR_SIZE, val % 8);
      var sect := fs.g.bitbase + val / 8 / SECTOR_SIZE;
      var res := LoadBitmap(fs, sect);
      if res != OK {
        return IO_ERROR;
      }
      done, r, scl, val, ctr, q := ScanSector(fs, start, ncl, scl, val, ctr, q);
    }
  }

  /** The first cyclically free cluster is found for ncl = 1; 0 means every bit is set. */
  lemma FirstFree(bits: seq<bool>, start: nat, r: dword)
    requires start < |bits| < 0x8000_0000 && FirstRun(bits, start, 1, r)
    ensures r == 0 <==> forall i :: 0 <= i < |bits| ==> bits[i]
    ensures r != 0 ==> 2 <= r < |bits| + 2 && !bits[r - 2]
    ensures r != 0 && r - 2 >= start ==> forall i :: start <= i < r - 2 ==> bits[i]
    ensures r != 0 && r - 2 < start ==> forall i :: 0 <= i < |bits| && (i >= start || i < r - 2) ==> bits[i]
  {
    if r == 0 {
      forall i | 0 <= i < |bits| ensures bits[i] {
        var p := if i < start then i + |bits| else i;
        assert !FreeRun(bits, p, 1);
      }
    } else {
      var p :| IsFirstRun(bits, start, 1, p) && r == Wrap(p, |bits|) + 2;
      assert !bits[Wrap(p, |bits|)];
      forall i | 0 <= i < |bits| && start <= (if i < start then i + |bits| else i) < p ensures bits[i] {
        assert !FreeRun(bits, if i < start then i + |bits| else i, 1);
      }
    }
  }

  // The k bits from p on are clear and all exist.
  ghost predicate ClearRun(bits: seq<bool>, p: nat, k: nat) {
    p + k <= |bits| && forall x :: p <= x < p + k ==> !bits[x]
  }

  /** Scanning from cluster 2 finds the lowest free run of ncl clusters. */
  lemma LowestRun(bits: seq<bool>, ncl: dword, r: dword)
    requires 0 < |bits| < 0x8000_0000 && ncl > 0 && FirstRun(bits, 0, ncl, r)
    ensures r == 0 <==> forall p: nat :: !ClearRun(bits, p, ncl)
    ensures r != 0 ==> r >= 2 && ClearRun(bits, r - 2, ncl) && forall p: nat :: p < r - 2 ==> !ClearRun(bits, p, ncl)
  {
    forall p: nat | p + ncl <= |bits| ensures ClearRun(bits, p, ncl) <==> FreeRun(bits, p, ncl) {
      if FreeRun(bits, p, ncl) {
        forall x | p <= x < p + ncl ensures !bits[x] {
          assert !bits[Wrap(x, |bits|)];
        }
      }
    }
    if r != 0 {
      var p: nat :| IsFirstRun(bits, 0, ncl, p) && r == Wrap(p, |bits|) + 2;
    }
  }

  /** What find_bitmap is for: a free run of k clusters, and 0 exactly when there is none. */
  ghost predicate Right(bits: seq<bool>, k: nat, r: dword) {
    && (r == 0 <==> forall p: nat :: !ClearRun(bits, p, k))
    && (r != 0 ==> r >= 2 && ClearRun(bits, r - 2, k))
  }

  /** The first run of the scan goes over the end of the bitmap. */
  ghost predicate Straddles(bits: seq<bool>, start: nat, k: nat)
    requires start < |bits|
  {
    exists p: nat :: p < |bits| < p + k && IsFirstRun(bits, start, k, p)
  }

  /** The scan sees no run, because every free run has the start of the scan inside it. */
  ghost predicate CutByStart(bits: seq<bool>, start: nat, k: nat)
    requires start < |bits|
  {
    NoRunYet(bits, start, k, |bits|) && exists c: nat :: c < start < c + k && ClearRun(bits, c, k)
  }

  // A run that does not go over the end of the bitmap consists of clusters that follow each other.
  lemma WindowIsRun(bits: seq<bool>, p: nat, k: nat)
    requires p + k <= 2 * |bits| && (p + k <= |bits| || p >= |bits|)
    ensures FreeRun(bits, p, k) <==> ClearRun(bits, if p < |bits| then p else p - |bits|, k)
  {
    var q := if p < |bits| then p else p - |bits|;
    if FreeRun(bits, p, k) {
      forall x | q <= x < q + k ensures !bits[x] {
        assert !bits[Wrap(x + (p - q), |bits|)];
      }
    }
  }

  // What is right about the answer 0.
  lemma NoneIsRight(bits: seq<bool>, start: nat, k: nat)
    requires start < |bits| && k > 0 && NoRunYet(bits, start, k, |bits|)
    ensures CutByStart(bits, start, k) <==> exists c: nat :: ClearRun(bits, c, k)
  {
    forall c: nat | ClearRun(bits, c, k) ensures c < start < c + k {
      if c >= start {
        WindowIsRun(bits, c, k);
      } else if c + k <= start {
        WindowIsRun(bits, c + |bits|, k);
      }
    }
  }

  /** Exactly when find_bitmap's answer is right, for every bitmap, start and length: unless the first run
      of the scan goes over the end of the bitmap, or there is none and the start cuts a free run. */
  lemma RightUnless(bits: seq<bool>, start: nat, k: nat, r: dword)
    requires start < |bits| < 0x8000_0000 && k > 0 && FirstRun(bits, start, k, r)
    ensures Right(bits, k, r) <==> !Straddles(bits, start, k) && !CutByStart(bits, start, k)
  {
    if r == 0 {
      NoneIsRight(bits, start, k);
    } else {
      var p: nat :| IsFirstRun(bits, start, k, p) && r == Wrap(p, |bits|) + 2;
      if !(p < |bits| < p + k) {
        WindowIsRun(bits, p, k);
      }
    }
  }

  /** A run over the end: four clusters, the first and the last free, asked for two from the last one
      on. The answer, cluster 5, is not followed by a cluster at all. */
  lemma StraddlingRun()
    ensures FirstRun([false, true, true, false], 3, 2, 5)
    ensures forall p: nat :: !ClearRun([false, true, true, false], p, 2)
    ensures Straddles([false, true, true, false], 3, 2)
  {
    var bits := [false, true, true, false];
    assert IsFirstRun(bits, 3, 2, 3);
    forall p: nat ensures !ClearRun(bits, p, 2) {
      if p < 2 {
        assert bits[p] || bits[p + 1];
      } else if p == 2 {
        assert bits[2];
      }
    }
  }

  /** A run cut by the start: four clusters, the middle ones free, asked for two from the second of them
      on. The answer is that there is none. */
  lemma MissedRun()
    ensures FirstRun([true, false, false, true], 2, 2, 0)
    ensures ClearRun([true, false, false, true], 1, 2)
    ensures CutByStart([true, false, false, true], 2, 2)
  {
    var bits := [true, false, false, true];
    forall p | 2 <= p && p + 2 <= 6 ensures !FreeRun(bits, p, 2) {
      assert bits[Wrap(3, 4)] && bits[Wrap(4, 4)];
    }
    assert ClearRun(bits, 1, 2);
  }

  /** bits with the k from p on set to v. */
  function SetRun(bits: seq<bool>, p: nat, k: nat, v: bool): (r: seq<bool>)
    requires p + k <= |bits|
    ensures |r| == |bits|
    ensures forall i :: 0 <= i < |bits| ==> r[i] == if p <= i < p + k then v else bits[i]
  {
    seq(|bits|, i requires 0 <= i < |bits| => if p <= i < p + k then v else bits[i])
  }

  lemma FlippedBits(g: Geometry, b: seq<byte>, val: nat)
    requires g.Ok() && |b| == g.BitmapSectors() * SECTOR_SIZE && val < g.nFatent - 2
    ensures val / 8 < |b|
    ensures Bits(g, b[val / 8 := FlipByte(b[val / 8], val % 8)]) == Bits(g, b)[val := !Bits(g, b)[val]]
  {
    var c := b[val / 8 := FlipByte(b[val / 8], val % 8)];
    forall k | 0 <= k < g.nFatent - 2 ensures BitOf(c[k / 8], k % 8) <==> if k == val then !BitOf(b[k / 8], k % 8) else BitOf(b[k / 8], k % 8) {
      FlipBitFlips(b[val / 8], val % 8, k % 8);
    }
  }

  /** Equal contents outside the bitmap and the second FAT. */
  ghost predicate SameOutsideBitmap(g: Geometry, a: seq<Sector>, b: seq<Sector>) {
    |a| == |b| && forall s :: 0 <= s < |a| && !g.InFat2(s) && !(g.bitbase <= s < g.bitbase + g.BitmapSectors()) ==> a[s] == b[s]
  }

  lemma SameOutsideBitmapRefl(g: Geometry, a: seq<Sector>)
    ensures SameOutsideBitmap(g, a, a)
  {
  }

  lemma SameOutsideBitmapTwice(g: Geometry, a: seq<Sector>, b: seq<Sector>, c: seq<Sector>)
    requires SameOutsideBitmap(g, a, b) && SameOutsideBitmap(g, b, c)
    ensures SameOutsideBitmap(g, a, c)
  {
  }

  lemma FlippedView(g: Geometry, v: seq<Sector>, val: nat, s: nat, i: nat, bm: nat)
    requires g.Ok() && g.fsType == EXFAT && |v| == g.total && val < g.nFatent - 2 && BitPlace(g, val, s, i, bm)
    ensures s < |v| && i < SECTOR_SIZE && bm < 8
    ensures var w := v[s := Splice(v[s], i, [FlipByte(v[s][i], bm)])];
            && Bits(g, BitmapBytes(g, w)) == Bits(g, BitmapBytes(g, v))[val := !Bits(g, BitmapBytes(g, v))[val]]
            && FatBytes(g, w) == FatBytes(g, v) && SameOutsideBitmap(g, v, w)
  {
    PlacedBit(g, v, val, s, i, bm);
    FlippedBits(g, BitmapBytes(g, v), val);
    FatInside(g);
    var x := [FlipByte(v[s][i], bm)];
    SpliceRegion(v, g.bitbase, g.BitmapSectors(), s, i, x);
    SameRegion(v, v[s := Splice(v[s], i, x)], g.fatbase, g.fsize);
    OffsetOfBit(g, val, s, i, bm);
    assert Splice(BitmapBytes(g, v), val / 8, x) == BitmapBytes(g, v)[val / 8 := x[0]];
  }

  lemma OffsetOfBit(g: Geometry, val: nat, s: nat, i: nat, bm: nat)
    requires BitPlace(g, val, s, i, bm)
    ensures (s - g.bitbase) * SECTOR_SIZE + i == val / 8
  {
  }

  // Flip bit val, which is bit bm of byte i of the window.
  method FlipInWindow(fs: FATFS, i: nat, bm: nat, ghost val: nat)
    requires fs.WindowOk() && fs.BitmapOk() && val < fs.g.nFatent - 2 && BitPlace(fs.g, val, fs.winsect, i, bm)
    modifies fs`wflag, fs.win
    ensures fs.WindowOk() && fs.Fat() == old(fs.Fat())
    ensures fs.Bits() == old(fs.Bits())[val := !old(fs.Bits())[val]]
    ensures fs.winsect < |fs.View()| && fs.win[..] == fs.View()[fs.winsect]
    ensures SameOutsideBitmap(fs.g, old(fs.View()), fs.View())
  {
    hide Bits, BitmapBytes, FatBytes, FlipBit, BitPlace, Mirrored, SameOutsideBitmap, Splice;
    PlacedBit(fs.g, fs.View(), val, fs.winsect, i, bm);
    FlippedView(fs.g, fs.View(), val, fs.winsect, i, bm);
    assert fs.win[i] == fs.View()[fs.winsect][i];
    fs.StoreWindow(i, [FlipByte(fs.win[i], bm)]);
  }

  // The state of change_bitmap after flipping k bits from position p on.
  ghost predicate Flipping(bits: seq<bool>, now: seq<bool>, p: nat, k: nat, bv: bool) {
    p + k <= |bits| && now == SetRun(bits, p, k, bv) && forall i :: p <= i < p + k ==> bits[i] == !bv
  }

  lemma FlipOn(bits: seq<bool>, now: seq<bool>, p: nat, k: nat, bv: bool)
    requires Flipping(bits, now, p, k, bv) && p + k < |bits|
    ensures now[p + k] == bits[p + k]
    ensures bits[p + k] == !bv ==> Flipping(bits, now[p + k := !now[p + k]], p, k + 1, bv)
  {
    if bits[p + k] == !bv {
      assert now[p + k := !now[p + k]] == SetRun(bits, p, k + 1, bv);
    }
  }

  // One bit of change_bitmap: bit number k of the run.
  method FlipNext(fs: FATFS, i: nat, bm: nat, p: nat, bv: bool, ghost bits: seq<bool>, k: nat) returns (flipped: bool)
    requires fs.WindowOk() && fs.BitmapOk() && Flipping(bits, fs.Bits(), p, k, bv) && p + k < |bits|
    requires BitPlace(fs.g, p + k, fs.winsect, i, bm)
    requires fs.winsect < |fs.View()| && fs.win[..] == fs.View()[fs.winsect]
    modifies fs`wflag, fs.win
    ensures fs.WindowOk() && fs.Fat() == old(fs.Fat())
    ensures fs.winsect < |fs.View()| && fs.win[..] == fs.View()[fs.winsect]
    ensures SameOutsideBitmap(fs.g, old(fs.View()), fs.View())
    ensures flipped ==> Flipping(bits, fs.Bits(), p, k + 1, bv)
    ensures !flipped ==> bits[p + k] == bv && Flipping(bits, fs.Bits(), p, k, bv)
  {
    hide BitOf, FlipBit, FatBytes, Overlaid, Mirrored, BitmapBytes, Bits, BitPlace, Flipping, Region, SameOutsideBitmap, SetRun, Splice;
    FlippingSize(bits, fs.Bits(), p, k, bv);
    PlacedBit(fs.g, fs.View(), p + k, fs.winsect, i, bm);
    FlipOn(bits, fs.Bits(), p, k, bv);
    SameOutsideBitmapRefl(fs.g, fs.View());
    flipped := bv != BitOf(fs.win[i], bm);
    if flipped {
      FlipInWindow(fs, i, bm, p + k);
    }
  }

  lemma FlippingSize(bits: seq<bool>, now: seq<bool>, p: nat, k: nat, bv: bool)
    requires Flipping(bits, now, p, k, bv)
    ensures |bits| == |now|
  {
  }

  // The do-while loops of change_bitmap: flip bits in the loaded window.
  method FlipSector(fs: FATFS, i0: nat, bm0: nat, p: nat, ncl: nat, bv: bool, ghost bits: seq<bool>, done0: nat)
    returns (stop: bool, res: FRESULT, done: nat)
    requires fs.WindowOk() && fs.BitmapOk() && Flipping(bits, fs.Bits(), p, done0, bv)
    requires done0 < ncl && p + ncl <= |bits|
    requires BitPlace(fs.g, p + done0, fs.winsect, i0, bm0)
    requires fs.winsect < |fs.View()| && fs.win[..] == fs.View()[fs.winsect]
    modifies fs`wflag, fs.win
    ensures fs.WindowOk() && fs.Fat() == old(fs.Fat())
    ensures SameOutsideBitmap(fs.g, old(fs.View()), fs.View())
    ensures done0 <= done <= ncl && Flipping(bits, fs.Bits(), p, done, bv)
    ensures stop ==> (res == OK && done == ncl) || (res == INT_ERR && done < ncl && bits[p + done] == bv)
    ensures !stop ==> done0 < done < ncl && BitPlace(fs.g, p + done, fs.winsect + 1, 0, 0)
  {
    hide BitOf, FlipBit, FatBytes, Overlaid, Mirrored, BitmapBytes, Bits, BitPlace, Flipping, Region, SameOutsideBitmap, SetRun, Splice;
    ghost var v := fs.View();
    SameOutsideBitmapRefl(fs.g, v);
    FlippingSize(bits, fs.Bits(), p, done0, bv);
    PlacedBit(fs.g, v, p + done0, fs.winsect, i0, bm0);
    var i: nat, bm: nat := i0, bm0;
    done := done0;
    while i < SECTOR_SIZE
      invariant fs.WindowOk() && fs.Fat() == old(fs.Fat())
      invariant SameOutsideBitmap(fs.g, v, fs.View())
      invariant fs.winsect < |fs.View()| && fs.win[..] == fs.View()[fs.winsect]
      invariant done0 <= done < ncl && Flipping(bits, fs.Bits(), p, done, bv)
      invariant if i < SECTOR_SIZE then BitPlace(fs.g, p + done, fs.winsect, i, bm) && bm < 8
                else done0 < done && BitPlace(fs.g, p + done, fs.winsect + 1, 0, 0)
      decreases ncl - done
    {
      NextPlace(fs.g, p + done, fs.winsect, i, bm);
      ghost var u := fs.View();
      var flipped := FlipNext(fs, i, bm, p, bv, bits, done);
      SameOutsideBitmapTwice(fs.g, v, u, fs.View());
      if !flipped {
        return true, INT_ERR, done;
      }
      done := done + 1;
      if done == ncl {
        return true, OK, done;
      }
      bm := bm + 1;
      if bm == 8 {
        bm, i := 0, i + 1;
      }
    }
    stop, res := false, OK;
  }

  /** change_bitmap: turns bits clst-2 .. clst-2+ncl-1 from !bv to bv and stops with an
      internal error at the first of them that already is bv. */
  method ChangeBitmap(fs: FATFS, clst: dword, ncl: dword, bv: bool) returns (res: FRESULT, done: nat)
    requires fs.WindowOk() && fs.BitmapOk() && 2 <= clst && 0 < ncl && clst - 2 + ncl <= fs.g.nFatent - 2
    modifies fs`disk, fs`faulted, fs`wflag, fs`winsect, fs.win
    ensures fs.WindowOk() && fs.Fat() == old(fs.Fat())
    ensures SameOutsideBitmap(fs.g, old(fs.View()), fs.View())
    ensures done <= ncl && fs.Bits() == SetRun(old(fs.Bits()), clst - 2, done, bv)
    ensures forall i :: clst - 2 <= i < clst - 2 + done ==> old(fs.Bits())[i] == !bv
    ensures res == OK <==> done == ncl
    ensures res == INT_ERR ==> old(fs.Bits())[clst - 2 + done] == bv
    ensures res != OK && res != INT_ERR ==> res == DISK_ERR && fs.faulted
    ensures old(fs.faulted) ==> fs.faulted
  {
    hide FatBytes, Overlaid, Mirrored, BitmapBytes, Bits, BitPlace, Region, Splice;
    ghost var bits := fs.Bits();
    var p := clst - 2;
    var sect: nat := fs.g.bitbase + p / 8 / SECTOR_SIZE;
    var i: nat, bm: nat := p / 8 % SECTOR_SIZE, p % 8;
    var stop := false;
    done, res := 0, OK;
    FirstPlace(fs.g, p);
    while !stop
      invariant fs.WindowOk() && fs.BitmapOk() && fs.Fat() == old(fs.Fat()) && (old(fs.faulted) ==> fs.faulted)
      invariant SameOutsideBitmap(fs.g, old(fs.View()), fs.View())
      invariant done <= ncl && Flipping(bits, fs.Bits(), p, done, bv)
      invariant !stop ==> done < ncl && BitPlace(fs.g, p + done, sect, i, bm)
      invariant stop ==> (res == OK && done == ncl) || (res == INT_ERR && done < ncl && bits[p + done] == bv)
      decreases !stop, ncl - done
    {
      PlacedBit(fs.g, fs.View(), p + done, sect, i, bm);
      res := LoadBitmap(fs, sect);
      if res != OK {
        return;
      }
      sect := sect + 1;
      stop, res, done := FlipSector(fs, i, bm, p, ncl, bv, bits, done);
      i, bm := 0, 0;
    }
  }

  lemma FirstPlace(g: Geometry, val: nat)
    ensures BitPlace(g, val, g.bitbase + val / 8 / SECTOR_SIZE, val / 8 % SECTOR_SIZE, val % 8)
  {
  }
}
