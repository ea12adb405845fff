/** remove_chain on exFAT: the clusters of a list are marked free run by run in the bitmap. */
module Removal {
  import opened Arith
  import opened Bytes
  import opened Layout
  import opened FatTable
  import opened Chains
  import opened Volume
  import opened FatAccess
  import opened Bitmap
  import opened ChainOps
  import opened Deferred
  import LinkMap

  ghost predicate InPart(ch: seq<nat>, lo: nat, hi: nat, c: nat) {
    exists i :: lo <= i < hi && i < |ch| && ch[i] == c
  }

  /** The clusters lo .. hi-1 of the list have been marked free, no other mark has changed. */
  ghost predicate ClearedBits(g: Geometry, was: seq<bool>, now: seq<bool>, ch: seq<nat>, lo: nat, hi: nat) {
    && |was| == |now| == g.nFatent - 2
    && forall c: nat :: g.IsCluster(c) ==> (now[c - 2] <==> was[c - 2] && !InPart(ch, lo, hi, c))
  }

  /** Where the run of consecutive clusters that includes entry j of the list begins, not before lo. */
  function RunStart(ch: seq<nat>, lo: nat, j: nat): (r: nat)
    requires lo <= j < |ch|
    ensures lo <= r <= j
  {
    if j > lo && ch[j] == ch[j - 1] + 1 then RunStart(ch, lo, j - 1) else j
  }

  lemma {:induction false} RunIsConsecutive(ch: seq<nat>, lo: nat, j: nat, i: nat)
    requires lo <= j < |ch| && RunStart(ch, lo, j) <= i <= j
    ensures ch[i] == ch[RunStart(ch, lo, j)] + (i - RunStart(ch, lo, j))
  {
    if i < j {
      RunIsConsecutive(ch, lo, j - 1, i);
    } else if RunStart(ch, lo, j) < j {
      RunIsConsecutive(ch, lo, j - 1, j - 1);
    }
  }

  /** How many entries of the list are marked free in the end: all, unless the end mark reads as the
      number behind the last cluster; then the last run is forgotten. */
  function FreedUpTo(ch: seq<nat>, at: nat, mark: nat): nat
    requires at < |ch|
  {
    if mark == ch[|ch| - 1] + 1 then RunStart(ch, at, |ch| - 1) else |ch|
  }

  // remove_chain's variables when it looks at cluster clst, entry j of the list.
  ghost predicate Freeing(g: Geometry, was: seq<bool>, now: seq<bool>, ch: seq<nat>, at: nat, mark: nat, j: nat, scl: nat, ecl: nat, clst: nat) {
    && at <= j <= |ch| && at < |ch|
    && if j < |ch| then clst == ecl == ch[j] && scl == ch[RunStart(ch, at, j)] && ClearedBits(g, was, now, ch, at, RunStart(ch, at, j))
       else clst == mark && ClearedBits(g, was, now, ch, at, FreedUpTo(ch, at, mark))
  }

  /** The list whose clusters from entry at on are to be freed: get_fat leads from each to the next,
      and from the last to the mark; all are marked as used. */
  ghost predicate Freeable(g: Geometry, f: seq<dword>, a: Alloc, was: seq<bool>, ch: seq<nat>, at: nat, mark: nat)
    requires g.Ok() && |f| == g.nFatent && forall c :: 0 <= c < |f| ==> f[c] < 0x8000_0000
  {
    && ClusterList(g, ch) && at < |ch| && |was| == g.nFatent - 2 && mark >= g.nFatent && g.nFatent < 0x1_0000_0000
    && forall i :: at <= i < |ch| ==> LeadsOn(g, f, a, was, ch, mark, i)
  }

  ghost predicate LeadsOn(g: Geometry, f: seq<dword>, a: Alloc, was: seq<bool>, ch: seq<nat>, mark: nat, i: nat)
    requires g.Ok() && |f| == g.nFatent && forall c :: 0 <= c < |f| ==> f[c] < 0x8000_0000
    requires ClusterList(g, ch) && i < |ch| && g.nFatent < 0x1_0000_0000 && |was| == g.nFatent - 2
  {
    Used(was, ch[i]) && FatValue(g, f, a, ch[i]) as int == if i + 1 < |ch| then ch[i + 1] else mark
  }

  // The run goes on.
  lemma RunGoesOn(g: Geometry, was: seq<bool>, now: seq<bool>, ch: seq<nat>, at: nat, mark: nat, j: nat, scl: nat, ecl: nat)
    requires ClusterList(g, ch) && j < |ch| && Freeing(g, was, now, ch, at, mark, j, scl, ecl, ecl)
    requires ecl + 1 == if j + 1 < |ch| then ch[j + 1] else mark
    ensures Freeing(g, was, now, ch, at, mark, j + 1, scl, ecl + 1, ecl + 1)
  {
    hide ClearedBits;
  }

  // The run ends, and change_bitmap frees it.
  lemma RunFreed(g: Geometry, was: seq<bool>, now: seq<bool>, ch: seq<nat>, at: nat, mark: nat, j: nat, scl: nat, ecl: nat)
    requires ClusterList(g, ch) && j < |ch| && Freeing(g, was, now, ch, at, mark, j, scl, ecl, ecl)
    requires AllUsed(was, ch, at) && mark >= g.nFatent
    ensures 2 <= scl <= ecl < g.nFatent && scl - 2 + (ecl - scl + 1) <= |now| == g.nFatent - 2
    ensures forall b :: scl - 2 <= b < ecl - 1 ==> now[b]
    ensures var next := if j + 1 < |ch| then ch[j + 1] else mark;
            next != ecl + 1 ==> Freeing(g, was, SetRun(now, scl - 2, ecl - scl + 1, false), ch, at, mark, j + 1, next, next, next)
  {
    hide ClearedBits;
    var r := RunStart(ch, at, j);
    RunIsConsecutive(ch, at, j, j);
    RunBits(g, was, now, ch, at, r, j);
    var after := SetRun(now, scl - 2, ecl - scl + 1, false);
    RunCleared(g, was, now, after, ch, at, r, j);
  }

  lemma PartOfRun(ch: seq<nat>, at: nat, r: nat, j: nat, c: nat)
    requires at <= j < |ch| && r == RunStart(ch, at, j)
    ensures ch[r] <= c <= ch[j] <==> InPart(ch, r, j + 1, c)
    ensures InPart(ch, at, j + 1, c) <==> InPart(ch, at, r, c) || InPart(ch, r, j + 1, c)
  {
    RunIsConsecutive(ch, at, j, j);
    if ch[r] <= c <= ch[j] {
      RunIsConsecutive(ch, at, j, r + (c - ch[r]));
      assert ch[r + (c - ch[r])] == c;
    }
    if InPart(ch, r, j + 1, c) {
      var i :| r <= i < j + 1 && i < |ch| && ch[i] == c;
      RunIsConsecutive(ch, at, j, i);
    }
  }

  // The clusters of the run are not among those freed before.
  lemma RunNotFreed(g: Geometry, ch: seq<nat>, at: nat, r: nat, j: nat, i: nat)
    requires ClusterList(g, ch) && at <= r <= i <= j < |ch|
    ensures !InPart(ch, at, r, ch[i])
  {
  }

  lemma RunBits(g: Geometry, was: seq<bool>, now: seq<bool>, ch: seq<nat>, at: nat, r: nat, j: nat)
    requires ClusterList(g, ch) && at <= j < |ch| && r == RunStart(ch, at, j) && ClearedBits(g, was, now, ch, at, r)
    requires AllUsed(was, ch, at)
    ensures 2 <= ch[r] <= ch[j] < g.nFatent && |now| == g.nFatent - 2
    ensures forall b :: ch[r] - 2 <= b < ch[j] - 1 ==> now[b]
  {
    RunIsConsecutive(ch, at, j, j);
    forall b | ch[r] - 2 <= b < ch[j] - 1 ensures now[b] {
      var i := r + (b + 2 - ch[r]);
      RunIsConsecutive(ch, at, j, i);
      RunNotFreed(g, ch, at, r, j, i);
      assert g.IsCluster(ch[i]) && ch[i] == b + 2;
    }
  }

  lemma RunCleared(g: Geometry, was: seq<bool>, now: seq<bool>, after: seq<bool>, ch: seq<nat>, at: nat, r: nat, j: nat)
    requires ClusterList(g, ch) && at <= j < |ch| && r == RunStart(ch, at, j) && ClearedBits(g, was, now, ch, at, r)
    requires 2 <= ch[r] <= ch[j] < g.nFatent && after == SetRun(now, ch[r] - 2, ch[j] - ch[r] + 1, false)
    ensures ClearedBits(g, was, after, ch, at, j + 1)
  {
    hide RunStart, InPart;
    forall c: nat | g.IsCluster(c) ensures after[c - 2] <==> was[c - 2] && !InPart(ch, at, j + 1, c) {
      PartOfRun(ch, at, r, j, c);
    }
  }

  predicate Used(bits: seq<bool>, c: nat) {
    2 <= c < |bits| + 2 && bits[c - 2]
  }

  ghost predicate AllUsed(bits: seq<bool>, ch: seq<nat>, at: nat) {
    forall i :: at <= i < |ch| ==> Used(bits, ch[i])
  }

  // The clusters marked as used.
  ghost function UsedBits(g: Geometry, bits: seq<bool>): set<nat>
    requires |bits| == g.nFatent - 2
  {
    set c: nat | c < g.nFatent && Used(bits, c)
  }

  // Freeing a run that was in use leaves fewer clusters in use.
  lemma FewerUsed(g: Geometry, bits: seq<bool>, p: nat, k: nat)
    requires |bits| == g.nFatent - 2 && 0 < k && p + k <= |bits| && bits[p]
    ensures UsedBits(g, SetRun(bits, p, k, false)) < UsedBits(g, bits)
  {
    var after := SetRun(bits, p, k, false);
    assert p + 2 in UsedBits(g, bits) && p + 2 !in UsedBits(g, after);
    assert UsedBits(g, after) <= UsedBits(g, bits);
  }

  // get_fat changes nothing that matters here.
  method NextOf(fs: FATFS, obj: FFOBJID, clst: dword) returns (nxt: dword)
    requires fs.WindowOk() && fs.BitmapOk()
    modifies fs`disk, fs`faulted, fs`wflag, fs`winsect, fs.win
    ensures fs.WindowOk() && fs.Fat() == old(fs.Fat()) && fs.Bits() == old(fs.Bits()) && SameOutsideTables(fs.g, old(fs.View()), fs.View())
    ensures (nxt == IO_ERROR && fs.faulted) || nxt == FatValue(fs.g, fs.Links(), obj.Status(), clst)
    ensures nxt == IO_ERROR ==> fs.faulted
    ensures old(fs.faulted) ==> fs.faulted
  {
    hide FatBytes, Overlaid, Mirrored, FatTable.Links, FatTable.Bits, BitmapBytes, FatValue;
    ghost var v := fs.View();
    nxt := GetFat(fs, obj, clst);
    SameViewOutside(fs.g, v, fs.View());
    SameBitmap(fs.g, v, fs.View());
  }

  lemma SameTablesTwice(g: Geometry, u: seq<Sector>, v: seq<Sector>, w: seq<Sector>)
    requires SameOutsideTables(g, u, v) && SameOutsideTables(g, v, w)
    ensures SameOutsideTables(g, u, w)
  {
  }

  lemma BitmapOnly(g: Geometry, v: seq<Sector>, w: seq<Sector>)
    requires SameOutsideBitmap(g, v, w) && g.fsType == EXFAT
    ensures SameOutsideTables(g, v, w)
  {
  }

  lemma SameTablesRefl(g: Geometry, u: seq<Sector>)
    ensures SameOutsideTables(g, u, u)
  {
  }

  // Counting n more free clusters stays within the number of clusters.
  ghost predicate Roomy(g: Geometry, freeClst: dword, n: int) {
    freeClst <= g.nFatent - 2 ==> freeClst + n <= g.nFatent - 2
  }

  // One round on a list that can be freed.
  lemma FreeStep(g: Geometry, f: seq<dword>, a: Alloc, was: seq<bool>, now: seq<bool>, ch: seq<nat>, at: nat, mark: nat,
                 j: nat, scl: nat, ecl: nat, clst: nat)
    requires g.Ok() && |f| == g.nFatent && forall c :: 0 <= c < |f| ==> f[c] < 0x8000_0000
    requires Freeable(g, f, a, was, ch, at, mark) && Freeing(g, was, now, ch, at, mark, j, scl, ecl, clst) && clst < g.nFatent < 0x1_0000_0000
    ensures at <= j < |ch| && clst == ecl && 2 <= scl <= ecl && |now| == g.nFatent - 2
    ensures var next := FatValue(g, f, a, clst);
            && next >= 2
            && (next as int == ecl + 1 ==> Freeing(g, was, now, ch, at, mark, j + 1, scl, next, next))
            && (next as int != ecl + 1 ==>
                  && (forall b :: scl - 2 <= b < ecl - 1 ==> now[b])
                  && Freeing(g, was, SetRun(now, scl - 2, ecl - scl + 1, false), ch, at, mark, j + 1, next, next, next))
  {
    hide ClearedBits, FatValue, ClusterList, SetRun;
    assert j < |ch|;
    assert LeadsOn(g, f, a, was, ch, mark, j);
    forall i | at <= i < |ch| ensures Used(was, ch[i]) {
      assert LeadsOn(g, f, a, was, ch, mark, i);
    }
    NextIsCluster(g, ch, j + 1);
    var next := if j + 1 < |ch| then ch[j + 1] else mark;
    RunFreed(g, was, now, ch, at, mark, j, scl, ecl);
    if next == ecl + 1 {
      RunGoesOn(g, was, now, ch, at, mark, j, scl, ecl);
    }
  }

  lemma NextIsCluster(g: Geometry, ch: seq<nat>, i: nat)
    requires ClusterList(g, ch)
    ensures i < |ch| ==> g.IsCluster(ch[i])
  {
  }

  // change_bitmap for the run that has ended.
  method FreeRun(fs: FATFS, scl: dword, ecl: dword) returns (res: FRESULT)
    requires fs.WindowOk() && fs.BitmapOk() && 2 <= scl <= ecl < fs.g.nFatent
    modifies fs`disk, fs`faulted, fs`wflag, fs`winsect, fs.win
    ensures fs.WindowOk() && fs.Fat() == old(fs.Fat()) && SameOutsideTables(fs.g, old(fs.View()), fs.View())
    ensures res == OK ==> fs.Bits() == SetRun(old(fs.Bits()), scl - 2, ecl - scl + 1, false)
    ensures res == OK ==> UsedBits(fs.g, fs.Bits()) < UsedBits(fs.g, old(fs.Bits()))
    ensures res == INT_ERR ==> exists b :: scl - 2 <= b < ecl - 1 && !old(fs.Bits())[b]
    ensures res == OK || res == INT_ERR || (res == DISK_ERR && fs.faulted)
    ensures old(fs.faulted) ==> fs.faulted
  {
    hide FatBytes, Overlaid, Mirrored, FatTable.Links, FatTable.Bits, BitmapBytes, SameOutsideTables, SetRun, UsedBits, SameOutsideBitmap;
    ghost var v, bits := fs.View(), fs.Bits();
    var done;
    res, done := ChangeBitmap(fs, scl, ecl - scl + 1, false);
    BitmapOnly(fs.g, v, fs.View());
    if res == OK {
      assert bits[scl - 2];
      FewerUsed(fs.g, bits, scl - 2, ecl - scl + 1);
    }
  }

  /** The loop of remove_chain on exFAT. It ends whatever the FAT says: a run grows upwards, and ending
      it frees clusters that were in use. */
  method FreeRuns(fs: FATFS, obj: FFOBJID, clst0: dword, ghost was: seq<bool>, ghost ch: seq<nat>, ghost at: nat, ghost mark: nat)
    returns (res: FRESULT)
    requires fs.WindowOk() && fs.BitmapOk() && fs.g.IsCluster(clst0)
    modifies fs`disk, fs`faulted, fs`wflag, fs`winsect, fs.win, fs`freeClst, fs`fsiFlag
    ensures fs.WindowOk() && fs.Fat() == old(fs.Fat()) && SameOutsideTables(fs.g, old(fs.View()), fs.View())
    ensures old(Freeable(fs.g, fs.Links(), obj.Status(), was, ch, at, mark) && Freeing(fs.g, was, fs.Bits(), ch, at, mark, at, clst0, clst0, clst0)
                && Roomy(fs.g, fs.freeClst, |ch| - at)) ==>
              if res == OK then ClearedBits(fs.g, was, fs.Bits(), ch, at, FreedUpTo(ch, at, mark)) && fs.freeClst == ChainOps.Counted(fs.g, old(fs.freeClst), |ch| - at)
              else fs.faulted
    ensures res == OK || res == INT_ERR || (res == DISK_ERR && fs.faulted)
    ensures old(fs.faulted) ==> fs.faulted
  {
    hide FatBytes, Overlaid, Mirrored, FatTable.Links, FatTable.Bits, BitmapBytes, FatValue, Freeing, Freeable, SameOutsideTables, SetRun, ClearedBits, FreedUpTo, UsedBits;
    hide SameOutsideBitmap, BitmapIsMeta, FATFS.WindowOk, Roomy, Geometry.Ok;
    ghost var f, u, free0 := fs.Links(), fs.View(), fs.freeClst;
    ghost var ok := Freeable(fs.g, f, obj.Status(), was, ch, at, mark) && Freeing(fs.g, was, fs.Bits(), ch, at, mark, at, clst0, clst0, clst0)
                    && Roomy(fs.g, fs.freeClst, |ch| - at);
    var clst, scl, ecl := clst0, clst0, clst0;
    ghost var j: nat := at;
    res := OK;
    var stop := false;
    SameTablesRefl(fs.g, u);
    FatFits(fs.g);
    while !stop && clst < fs.g.nFatent
      invariant fs.WindowOk() && fs.BitmapOk() && fs.Fat() == old(fs.Fat()) && SameOutsideTables(fs.g, u, fs.View()) && (old(fs.faulted) ==> fs.faulted)
      invariant clst >= 2 && (!stop && clst < fs.g.nFatent ==> 2 <= scl <= ecl == clst)
      invariant res == OK || (stop && (res == INT_ERR || (res == DISK_ERR && fs.faulted)))
      invariant ok && !stop ==> Freeing(fs.g, was, fs.Bits(), ch, at, mark, j, scl, ecl, clst) && j >= at && CountedOn(fs.g, free0, fs.freeClst, j - at)
      invariant ok && stop ==> res == DISK_ERR && fs.faulted
      decreases !stop, UsedBits(fs.g, fs.Bits()), fs.g.nFatent - clst
    {
      ghost var v := fs.View();
      if ok {
        FreeStep(fs.g, f, obj.Status(), was, fs.Bits(), ch, at, mark, j, scl, ecl, clst);
        RoomFor(fs.g, free0, fs.freeClst, |ch| - at, j - at);
      }
      var nxt;
      res, nxt, scl, ecl, stop := Round(fs, obj, clst, scl, ecl);
      SameTablesTwice(fs.g, u, v, fs.View());
      if !stop {
        clst, j := nxt, j + 1;
      }
    }
    if ok && !stop {
      FreeingEnds(fs.g, f, obj.Status(), was, fs.Bits(), ch, at, mark, j, scl, ecl, clst);
    }
  }

  // The free count after n of the clusters.
  ghost predicate CountedOn(g: Geometry, free0: dword, free: dword, n: int) {
    n >= 0 && free == ChainOps.Counted(g, free0, n)
  }

  lemma RoomFor(g: Geometry, free0: dword, free: dword, all: int, n: int)
    requires Roomy(g, free0, all) && CountedOn(g, free0, free, n) && n < all && g.Ok()
    ensures CountedOn(g, free0, if free < g.nFatent - 2 then free + 1 else free, n + 1)
  {
  }

  lemma FreeingEnds(g: Geometry, f: seq<dword>, a: Alloc, was: seq<bool>, now: seq<bool>, ch: seq<nat>, at: nat, mark: nat,
                    j: nat, scl: nat, ecl: nat, clst: nat)
    requires g.Ok() && |f| == g.nFatent && forall c :: 0 <= c < |f| ==> f[c] < 0x8000_0000
    requires Freeable(g, f, a, was, ch, at, mark) && Freeing(g, was, now, ch, at, mark, j, scl, ecl, clst) && clst >= g.nFatent
    ensures j == |ch| && at < |ch| && ClearedBits(g, was, now, ch, at, FreedUpTo(ch, at, mark))
  {
    hide FatValue;
    NextIsCluster(g, ch, j);
  }

  // Count one more free cluster, where the count is known.
  method CountFree(fs: FATFS)
    requires fs.WindowOk() && fs.BitmapOk()
    modifies fs`freeClst, fs`fsiFlag
    ensures fs.WindowOk() && fs.View() == old(fs.View()) && fs.Fat() == old(fs.Fat()) && fs.Bits() == old(fs.Bits())
    ensures fs.freeClst == if old(fs.freeClst) < fs.g.nFatent - 2 then old(fs.freeClst) + 1 else old(fs.freeClst)
  {
    hide FatBytes, Overlaid, Mirrored, FatTable.Bits, BitmapBytes;
    if fs.freeClst < fs.g.nFatent - 2 {
      fs.freeClst := fs.freeClst + 1;
      fs.fsiFlag := Dirtied(fs.fsiFlag);
    }
  }

  lemma FatFits(g: Geometry)
    requires g.Ok()
    ensures g.nFatent < 0x8000_0000
  {
  }

  // One round of it.
  method Round(fs: FATFS, obj: FFOBJID, clst: dword, scl0: dword, ecl0: dword)
    returns (res: FRESULT, nxt: dword, scl: dword, ecl: dword, stop: bool)
    requires fs.WindowOk() && fs.BitmapOk() && 2 <= scl0 <= ecl0 == clst < fs.g.nFatent
    modifies fs`disk, fs`faulted, fs`wflag, fs`winsect, fs.win, fs`freeClst, fs`fsiFlag
    ensures fs.WindowOk() && fs.Fat() == old(fs.Fat()) && SameOutsideTables(fs.g, old(fs.View()), fs.View())
    ensures !stop ==> res == OK && 2 <= nxt == FatValue(fs.g, fs.Links(), obj.Status(), clst) && ecl == nxt
    ensures !stop ==> fs.freeClst == if old(fs.freeClst) < fs.g.nFatent - 2 then old(fs.freeClst) + 1 else old(fs.freeClst)
    ensures !stop && nxt as int == clst as int + 1 ==> scl == scl0 && fs.Bits() == old(fs.Bits())
    ensures !stop && nxt as int != clst as int + 1 ==>
              scl == nxt && fs.Bits() == SetRun(old(fs.Bits()), scl0 - 2, clst - scl0 + 1, false) && UsedBits(fs.g, fs.Bits()) < UsedBits(fs.g, old(fs.Bits()))
    ensures stop && res != DISK_ERR ==>
              var v := FatValue(fs.g, fs.Links(), obj.Status(), clst);
              v < 2 || (v as int != clst as int + 1 && exists b :: scl0 - 2 <= b < clst - 1 && !old(fs.Bits())[b])
    ensures res == OK || res == INT_ERR || (res == DISK_ERR && fs.faulted)
    ensures old(fs.faulted) ==> fs.faulted
  {
    hide FatBytes, Overlaid, Mirrored, FatTable.Links, FatTable.Bits, BitmapBytes, FatValue, SameOutsideTables, SetRun, UsedBits, SameOutsideBitmap, BitmapIsMeta, FATFS.WindowOk, Geometry.Ok;
    ghost var u := fs.View();
    res, scl, ecl, stop := OK, scl0, ecl0, true;
    FatFits(fs.g);
    nxt := NextOf(fs, obj, clst);
    if nxt == 0 {
      return;
    }
    if nxt == BAD {
      res := INT_ERR;
      return;
    }
    if nxt == IO_ERROR {
      res := DISK_ERR;
      return;
    }
    CountFree(fs);
    if ecl as int + 1 == nxt as int {
      ecl := nxt;
    } else {
      ghost var v := fs.View();
      res := FreeRun(fs, scl, ecl);
      SameTablesTwice(fs.g, u, v, fs.View());
      if res != OK {
        return;
      }
      scl, ecl := nxt, nxt;
    }
    stop := false;
  }

  /** Cluster clst is entry at of the list of an object, pclst the one before, mark what get_fat answers
      for the last. */
  ghost predicate Callable(g: Geometry, f: seq<dword>, a: Alloc, ch: seq<nat>, clst: nat, pclst: nat, at: nat, mark: nat)
    requires g.Ok() && |f| == g.nFatent && forall c :: 0 <= c < |f| ==> f[c] < 0x8000_0000
  {
    && Denotes(g, f, a, ch) && a.nFrag == 0 && at < |ch| && ch[at] == clst && a.sclust == ch[0] && Predecessor(ch, at, pclst)
    && (forall i :: 0 <= i < |ch| ==> Answers(g, a, ch, i))
    && g.IsCluster(ch[|ch| - 1]) && g.nFatent < 0x1_0000_0000 && mark == FatValue(g, f, a, ch[|ch| - 1])
  }

  /** A call of remove_chain for an object on a valid volume. */
  ghost predicate CallOk(fs: FATFS, obj: FFOBJID, clst: nat, pclst: nat, key: nat, at: nat, mark: nat)
    reads fs, fs.win, obj
    ensures CallOk(fs, obj, clst, pclst, key, at, mark) ==> fs.Valid() && fs.g.fsType == EXFAT && key in fs.chains && at < |fs.chains[key]|
  {
    && fs.Valid() && fs.g.fsType == EXFAT && key in fs.chains
    && Callable(fs.g, fs.Links(), obj.Status(), fs.chains[key], clst, pclst, at, mark)
    && forall c :: c in fs.chains[key][at..] ==> c !in fs.sys
  }

  // The links after the last cluster that stays has got its end mark.
  ghost predicate Unlinked(f: seq<dword>, now: seq<dword>, stat: nat, pclst: nat, n: nat) {
    |now| == |f| && if pclst == 0 || stat == 2 then now == f else pclst < |f| && now == f[pclst := now[pclst]] && now[pclst] >= n
  }

  lemma StartFreeing(g: Geometry, f: seq<dword>, now: seq<dword>, a: Alloc, bits: seq<bool>, chains: ClusterLists, key: nat, at: nat, pclst: nat, mark: nat)
    requires g.Ok() && g.fsType == EXFAT && |f| == |now| == g.nFatent && |bits| == g.nFatent - 2
    requires (forall c :: 0 <= c < |f| ==> f[c] < 0x8000_0000) && forall c :: 0 <= c < |now| ==> now[c] < 0x8000_0000
    requires Disjoint(g, chains) && BitsAgree(g, bits, chains) && key in chains && at < |chains[key]| && Predecessor(chains[key], at, pclst)
    requires Denotes(g, f, a, chains[key]) && forall i :: 0 <= i < |chains[key]| ==> Answers(g, a, chains[key], i)
    requires Unlinked(f, now, a.stat, pclst, g.nFatent) && g.nFatent < 0x1_0000_0000
    requires g.IsCluster(chains[key][|chains[key]| - 1]) && mark == FatValue(g, f, a, chains[key][|chains[key]| - 1])
    ensures Freeable(g, now, a, bits, chains[key], at, mark)
    ensures Freeing(g, bits, bits, chains[key], at, mark, at, chains[key][at], chains[key][at], chains[key][at])
  {
    hide FatValue, Denotes, Answers, ClearedBits;
    var ch := chains[key];
    ListNonEmpty(g, f, a, ch);
    forall i | at <= i < |ch| ensures LeadsOn(g, now, a, bits, ch, mark, i) {
      NextInList(g, f, a, ch, i);
      assert ch[i] in chains[key];
      SameValue(g, f, now, a, ch, at, pclst, i);
    }
    NextInList(g, f, a, ch, |ch| - 1);
    NothingCleared(g, bits, ch, at);
  }

  lemma NothingCleared(g: Geometry, bits: seq<bool>, ch: seq<nat>, at: nat)
    requires |bits| == g.nFatent - 2
    ensures ClearedBits(g, bits, bits, ch, at, at)
  {
  }

  // The end mark put behind the clusters that stay does not matter to those that go.
  lemma SameValue(g: Geometry, f: seq<dword>, now: seq<dword>, a: Alloc, ch: seq<nat>, at: nat, pclst: nat, i: nat)
    requires g.Ok() && g.fsType == EXFAT && |f| == |now| == g.nFatent < 0x1_0000_0000
    requires (forall c :: 0 <= c < |f| ==> f[c] < 0x8000_0000) && forall c :: 0 <= c < |now| ==> now[c] < 0x8000_0000
    requires ClusterList(g, ch) && at <= i < |ch| && Predecessor(ch, at, pclst) && Unlinked(f, now, a.stat, pclst, g.nFatent)
    ensures FatValue(g, now, a, ch[i]) == FatValue(g, f, a, ch[i])
  {
  }

  // What is left, when all marks have been cleared.
  lemma FreedList(g: Geometry, was: seq<bool>, now: seq<bool>, chains: ClusterLists, key: nat, at: nat, free: dword, freeNow: dword)
    requires g.Ok() && Disjoint(g, chains) && |was| == g.nFatent - 2 && BitsAgree(g, was, chains) && CountOk(g, chains, free)
    requires key in chains && at < |chains[key]| && ClearedBits(g, was, now, chains[key], at, |chains[key]|)
    requires freeNow == ChainOps.Counted(g, free, |chains[key]| - at)
    ensures Disjoint(g, Cut(chains, key, at)) && BitsAgree(g, now, Cut(chains, key, at)) && CountOk(g, Cut(chains, key, at), freeNow)
    ensures forall x :: Owned(Cut(chains, key, at), x) <==> Owned(chains, x) && x !in chains[key][at..]
  {
    hide Owned, FreeClusters;
    CutCount(g, chains, key, at);
    CutDisjoint(g, chains, key, at);
    FreeBound(g, Cut(chains, key, at));
    forall c: nat | g.IsCluster(c) ensures now[c - 2] <==> Owned(Cut(chains, key, at), c) {
      PartIsTail(chains[key], at, c);
    }
  }

  lemma PartIsTail(ch: seq<nat>, at: nat, c: nat)
    requires at <= |ch|
    ensures InPart(ch, at, |ch|, c) <==> c in ch[at..]
  {
    if InPart(ch, at, |ch|, c) {
      var i :| at <= i < |ch| && ch[i] == c;
      assert ch[at..][i - at] == c;
    }
    if c in ch[at..] {
      var i :| 0 <= i < |ch| - at && ch[at..][i] == c;
      assert ch[at + i] == c;
    }
  }

  lemma RoomToFree(g: Geometry, chains: ClusterLists, key: nat, at: nat, free: dword)
    requires g.Ok() && Disjoint(g, chains) && CountOk(g, chains, free) && key in chains && at < |chains[key]|
    ensures Roomy(g, free, |chains[key]| - at)
  {
    hide Owned, FreeClusters;
    CutCount(g, chains, key, at);
    FreeBound(g, Cut(chains, key, at));
  }

  // The status of an object of which the clusters up to pclst are left.
  ghost predicate StatusLeft(a: Alloc, ch: seq<nat>, pclst: nat, stat: nat) {
    if pclst == 0 then stat == 0
    else if a.stat == 0 then stat == 0 || (stat == 2 && Leading(ch, pclst))
    else if a.stat == 3 && a.sclust <= pclst <= (a.sclust as int + a.nCont as int) % 0x1_0000_0000 then stat == 2
    else stat == a.stat
  }

  // The list up to pclst is one run.
  ghost predicate Leading(ch: seq<nat>, pclst: nat) {
    exists k :: 0 <= k < |ch| && ch[k] == pclst && Consecutive(ch, 0, k)
  }

  /** Whatever the status was, the new one and the FAT denote the part of the list that stays. */
  lemma RestDenoted(g: Geometry, f: seq<dword>, now: seq<dword>, a: Alloc, ch: seq<nat>, at: nat, pclst: nat, stat: nat)
    requires g.Ok() && g.fsType == EXFAT && Denotes(g, f, a, ch) && a.sclust == ch[0] && a.nFrag == 0
    requires 0 < at < |ch| && pclst == ch[at - 1] && Unlinked(f, now, a.stat, pclst, g.nFatent) && StatusLeft(a, ch, pclst, stat)
    ensures Denotes(g, now, a.(stat := stat), ch[..at])
  {
    hide OnFat, Consecutive;
    var left := ch[..at];
    PrefixList(g, ch, at);
    if a.stat == 2 {
      ConsecutivePrefix(ch, at, 0, |ch| - 1);
    } else {
      OnFatPrefix(g, f, now, ch, at, LinkedFrom(a));
      NothingConsecutive(left, |left| - 1);
      if a.stat == 3 {
        ConsecutivePrefix(ch, at, 0, a.nCont);
        WithinFirst(g, ch, a.nCont, at - 1);
        SmallMod(ch[0] + a.nCont, 0x1_0000_0000);
      } else if stat == 2 {
        LeadingPrefix(g, ch, at);
      } else {
        OnFatPrefix(g, f, now, ch, at, 0);
      }
    }
  }

  lemma PrefixList(g: Geometry, ch: seq<nat>, at: nat)
    requires ClusterList(g, ch) && 0 < at <= |ch|
    ensures ClusterList(g, ch[..at]) && ch[..at][0] == ch[0] && ch[..at][at - 1] == ch[at - 1]
  {
  }

  lemma ConsecutivePrefix(ch: seq<nat>, at: nat, lo: nat, hi: nat)
    requires at <= |ch| && Consecutive(ch, lo, hi) && hi < |ch|
    ensures Consecutive(ch[..at], lo, if hi < at then hi else at - 1)
  {
  }

  lemma NothingConsecutive(ch: seq<nat>, lo: int)
    requires |ch| <= lo + 1
    ensures Consecutive(ch, lo, |ch| - 1)
  {
  }

  lemma OnFatPrefix(g: Geometry, f: seq<dword>, now: seq<dword>, ch: seq<nat>, at: nat, lo: nat)
    requires ClusterList(g, ch) && |f| == |now| == g.nFatent && 0 < at < |ch| && OnFat(f, ch, lo, |ch| - 1)
    requires ch[at - 1] < |f| && now == f[ch[at - 1] := now[ch[at - 1]]]
    ensures OnFat(now, ch[..at], lo, at - 1)
  {
    forall i | lo <= i < at - 1 ensures now[ch[i]] == ch[i + 1] {
      assert f[ch[i]] == ch[i + 1];
    }
  }

  // A number within the first run belongs to it.
  lemma WithinFirst(g: Geometry, ch: seq<nat>, n: nat, i: nat)
    requires ClusterList(g, ch) && n < |ch| && Consecutive(ch, 0, n) && i < |ch|
    ensures ch[0] <= ch[i] <= ch[0] + n <==> i <= n
    ensures ch[0] + n < g.nFatent
  {
    ConsecutiveAt(ch, n, n);
    FirstIndex(g, ch, n, i);
  }

  lemma LeadingPrefix(g: Geometry, ch: seq<nat>, at: nat)
    requires ClusterList(g, ch) && 0 < at < |ch| && Leading(ch, ch[at - 1])
    ensures Consecutive(ch[..at], 0, at - 1)
  {
    var k :| 0 <= k < |ch| && ch[k] == ch[at - 1] && Consecutive(ch, 0, k);
    SameIndex(g, ch, k, at - 1);
    ConsecutivePrefix(ch, at, 0, k);
  }

  lemma SameIndex(g: Geometry, ch: seq<nat>, i: nat, j: nat)
    requires ClusterList(g, ch) && i < |ch| && j < |ch| && ch[i] == ch[j]
    ensures i == j
  {
  }

  // remove_chain on exFAT, an object that was fragmented before: is what is left of it one run?
  method IsOneRun(fs: FATFS, obj: FFOBJID, pclst: dword, ghost ch: seq<nat>, ghost at: nat) returns (res: FRESULT, oneRun: bool)
    requires fs.WindowOk() && fs.BitmapOk()
    modifies fs`disk, fs`faulted, fs`wflag, fs`winsect, fs.win
    ensures fs.WindowOk() && fs.Fat() == old(fs.Fat()) && fs.Bits() == old(fs.Bits()) && SameOutsideTables(fs.g, old(fs.View()), fs.View())
    ensures old(LeftOnFat(fs.g, fs.Links(), obj.Status(), ch, at, pclst)) ==>
              if res == OK then oneRun ==> Leading(ch, pclst) else fs.faulted
    ensures res == OK || res == INT_ERR || (res == DISK_ERR && fs.faulted)
    ensures old(fs.faulted) ==> fs.faulted
  {
    hide FatBytes, Overlaid, Mirrored, FatTable.Links, FatTable.Bits, BitmapBytes, FatValue, SameOutsideTables, BitmapIsMeta, FATFS.WindowOk, Geometry.Ok, LeftOnFat, Consecutive;
    ghost var u, f := fs.View(), fs.Links();
    ghost var ok := LeftOnFat(fs.g, f, obj.Status(), ch, at, pclst);
    var clst := obj.sclust;
    ghost var k: nat := 0;
    FatFits(fs.g);
    SameTablesRefl(fs.g, u);
    if ok {
      LeftParts(fs.g, f, obj.Status(), ch, at, pclst, 0);
    }
    OneAlone(ch);
    while clst != pclst
      invariant fs.WindowOk() && fs.BitmapOk() && fs.Fat() == old(fs.Fat()) && fs.Bits() == old(fs.Bits())
      invariant SameOutsideTables(fs.g, u, fs.View()) && (old(fs.faulted) ==> fs.faulted)
      invariant ok ==> k < at <= |ch| && clst == ch[k] && Consecutive(ch, 0, k)
      decreases fs.g.nFatent - clst
    {
      ghost var v := fs.View();
      if ok {
        LeftParts(fs.g, f, obj.Status(), ch, at, pclst, k);
        RunLonger(ch, k);
      }
      assert fs.Links() == f;
      NoCluster(fs.g, f, obj.Status(), clst);
      var nxt := NextOf(fs, obj, clst);
      SameTablesTwice(fs.g, u, v, fs.View());
      if nxt < 2 {
        return INT_ERR, false;
      }
      if nxt == IO_ERROR {
        return DISK_ERR, false;
      }
      if nxt as int != clst as int + 1 {
        return OK, false;
      }
      clst, k := clst + 1, k + 1;
    }
    if ok {
      assert k < |ch| && ch[k] == pclst;
    }
    return OK, true;
  }

  lemma OneAlone(ch: seq<nat>)
    ensures Consecutive(ch, 0, 0)
  {
  }

  lemma NoCluster(g: Geometry, f: seq<dword>, a: Alloc, clst: dword)
    requires g.Ok() && |f| == g.nFatent && forall c :: 0 <= c < |f| ==> f[c] < 0x8000_0000
    ensures clst >= g.nFatent ==> FatValue(g, f, a, clst) < 2
  {
  }

  lemma RunLonger(ch: seq<nat>, k: nat)
    requires Consecutive(ch, 0, k)
    ensures k + 1 < |ch| && ch[k + 1] == ch[k] + 1 ==> Consecutive(ch, 0, k + 1)
  {
  }

  /** get_fat leads through the clusters that stay. */
  ghost predicate LeftOnFat(g: Geometry, f: seq<dword>, a: Alloc, ch: seq<nat>, at: nat, pclst: nat)
    ensures LeftOnFat(g, f, a, ch, at, pclst) ==> 0 < at <= |ch| && a.sclust == ch[0]
  {
    && g.Ok() && g.fsType == EXFAT && |f| == g.nFatent && ClusterList(g, ch) && 0 < at <= |ch| && pclst == ch[at - 1]
    && a.stat == 0 && a.nFrag == 0 && a.sclust == ch[0] && OnFat(f, ch, 0, at - 1)
  }

  lemma LeftParts(g: Geometry, f: seq<dword>, a: Alloc, ch: seq<nat>, at: nat, pclst: nat, k: nat)
    requires LeftOnFat(g, f, a, ch, at, pclst) && k < at && forall c :: 0 <= c < |f| ==> f[c] < 0x8000_0000
    ensures at <= |ch| && 2 <= ch[k] < g.nFatent < 0x1_0000_0000 && 0 < at && pclst == ch[at - 1]
    ensures k < at - 1 ==> FatValue(g, f, a, ch[k]) as int == ch[k + 1] && ch[k + 1] >= 2
    ensures ch[k] != pclst ==> k < at - 1
  {
    if k < at - 1 {
      assert f[ch[k]] == ch[k + 1];
    }
  }

  lemma CallParts(fs: FATFS, obj: FFOBJID, clst: nat, pclst: nat, key: nat, at: nat, mark: nat)
    requires CallOk(fs, obj, clst, pclst, key, at, mark)
    ensures fs.g.IsCluster(clst) && clst == fs.chains[key][at] && (pclst != 0 ==> fs.g.IsCluster(pclst)) && (pclst == 0 <==> at == 0)
    ensures Disjoint(fs.g, fs.chains) && BitsAgree(fs.g, fs.Bits(), fs.chains) && CountOk(fs.g, fs.chains, fs.freeClst)
    ensures Predecessor(fs.chains[key], at, pclst) && fs.g.nFatent < 0x1_0000_0000
    ensures Denotes(fs.g, fs.Links(), obj.Status(), fs.chains[key]) && obj.nFrag == 0 && obj.sclust == fs.chains[key][0]
    ensures forall i :: 0 <= i < |fs.chains[key]| ==> Answers(fs.g, obj.Status(), fs.chains[key], i)
    ensures fs.g.IsCluster(fs.chains[key][|fs.chains[key]| - 1])
    ensures mark == FatValue(fs.g, fs.Links(), obj.Status(), fs.chains[key][|fs.chains[key]| - 1])
    ensures forall c :: c in fs.sys ==> Owned(fs.chains, c) && c !in fs.chains[key][at..]
  {
    hide FatValue, Denotes, Answers, FATFS.WindowOk, BitsAgree, Owned;
    ValidEntry(fs.g, fs.chains, key, at);
    ValidEntry(fs.g, fs.chains, key, if at > 0 then at - 1 else 0);
    FatFits(fs.g);
  }

  // The cluster in front of the removed ones becomes the end of the chain.
  method Unlink(fs: FATFS, obj: FFOBJID, pclst: dword) returns (res: FRESULT)
    requires fs.WindowOk() && fs.BitmapOk()
    modifies fs`disk, fs`faulted, fs`wflag, fs`winsect, fs.win
    ensures fs.WindowOk() && fs.Bits() == old(fs.Bits()) && SameOutsideTables(fs.g, old(fs.View()), fs.View())
    ensures res == OK ==> Unlinked(old(fs.Links()), fs.Links(), obj.stat, pclst, fs.g.nFatent)
    ensures res != OK && (pclst == 0 || fs.g.IsCluster(pclst)) ==> fs.faulted
    ensures res == OK || res == INT_ERR || (res == DISK_ERR && fs.faulted)
    ensures old(fs.faulted) ==> fs.faulted
  {
    hide FatBytes, Overlaid, Mirrored, FatTable.Links, FatTable.Bits, BitmapBytes, FATFS.WindowOk;
    ghost var v := fs.View();
    res := OK;
    SameTablesRefl(fs.g, v);
    if pclst != 0 && obj.stat != 2 {
      res := PutFat(fs, pclst, 0xFFFF_FFFF);
      SameBitmap(fs.g, v, fs.View());
      LinkFits(fs.g, 0);
    }
  }

  lemma UnlinkedOnFat(g: Geometry, f: seq<dword>, now: seq<dword>, a: Alloc, ch: seq<nat>, at: nat, pclst: nat)
    requires g.Ok() && g.fsType == EXFAT && Denotes(g, f, a, ch) && a.nFrag == 0 && a.sclust == ch[0]
    requires at < |ch| && Predecessor(ch, at, pclst) && Unlinked(f, now, a.stat, pclst, g.nFatent)
    ensures at > 0 && a.stat == 0 ==> LeftOnFat(g, now, a, ch, at, pclst)
    ensures at > 0 ==> pclst == ch[at - 1] >= 2
  {
    hide OnFat, Consecutive;
    if at > 0 && a.stat == 0 {
      OnFatPrefix(g, f, now, ch, at, 0);
      PrefixOnFat(now, ch, at);
    }
  }

  lemma PrefixOnFat(f: seq<dword>, ch: seq<nat>, at: nat)
    requires 0 < at <= |ch| && OnFat(f, ch[..at], 0, at - 1)
    ensures OnFat(f, ch, 0, at - 1)
  {
    forall i | 0 <= i < at - 1 && ch[i] < |f| ensures f[ch[i]] == ch[i + 1] {
      assert ch[..at][i] == ch[i];
    }
  }

  // Bring the chain status into line with what is left of the chain.
  method Settle(fs: FATFS, obj: FFOBJID, pclst: dword, ghost ch: seq<nat>, ghost at: nat) returns (res: FRESULT)
    requires fs.WindowOk() && fs.BitmapOk()
    modifies fs`disk, fs`faulted, fs`wflag, fs`winsect, fs.win, obj`stat
    ensures fs.WindowOk() && fs.Fat() == old(fs.Fat()) && fs.Bits() == old(fs.Bits()) && SameOutsideTables(fs.g, old(fs.View()), fs.View())
    ensures obj.Status() == old(obj.Status()).(stat := obj.stat) && (pclst == 0 ==> res == OK && obj.stat == 0)
    ensures old(pclst == 0 || obj.stat != 0 || LeftOnFat(fs.g, fs.Links(), obj.Status(), ch, at, pclst)) ==>
              if res == OK then StatusLeft(old(obj.Status()), ch, pclst, obj.stat) else fs.faulted
    ensures res == OK || res == INT_ERR || (res == DISK_ERR && fs.faulted)
    ensures old(fs.faulted) ==> fs.faulted
  {
    hide FatBytes, Overlaid, Mirrored, FatTable.Links, FatTable.Bits, BitmapBytes, FATFS.WindowOk, LeftOnFat, Leading;
    res := OK;
    SameTablesRefl(fs.g, fs.View());
    if pclst == 0 {
      obj.stat := 0;
    } else if obj.stat == 0 {
      var oneRun;
      res, oneRun := IsOneRun(fs, obj, pclst, ch, at);
      if res == OK && oneRun {
        obj.stat := 2;
      }
    } else if obj.stat == 3 && obj.sclust <= pclst && pclst as int <= (obj.sclust as int + obj.nCont as int) % 0x1_0000_0000 {
      obj.stat := 2;
    }
  }

  /** remove_chain on exFAT. On a valid volume it frees exactly the rest of the list, and the object
      denotes what is left, whatever its status was; except that, if the end mark reads as the number
      behind the last cluster, the last run stays marked as used. */
  method RemoveChainEx(fs: FATFS, obj: FFOBJID, clst: dword, pclst: dword, ghost key: nat, ghost at: nat, ghost mark: nat) returns (res: FRESULT)
    requires fs.WindowOk() && fs.BitmapOk()
    modifies fs, fs.win, obj`stat
    ensures fs.WindowOk() && SameOutsideTables(fs.g, old(fs.View()), fs.View())
    ensures !fs.g.IsCluster(clst) ==> res == INT_ERR && fs.Links() == old(fs.Links()) && fs.Bits() == old(fs.Bits())
    ensures old(CallOk(fs, obj, clst, pclst, key, at, mark)) && res == OK && mark != old(LastOf(fs.chains, key)) + 1 ==>
              && fs.Valid() && fs.chains == Cut(old(fs.chains), key, at)
              && (at > 0 ==> Tracks(fs, obj, key)) && (at == 0 ==> obj.stat == 0)
    ensures old(CallOk(fs, obj, clst, pclst, key, at, mark)) && res == OK && mark == old(LastOf(fs.chains, key)) + 1 ==>
              var ch := old(fs.chains)[key]; ClearedBits(fs.g, old(fs.Bits()), fs.Bits(), ch, at, RunStart(ch, at, |ch| - 1))
    ensures old(CallOk(fs, obj, clst, pclst, key, at, mark)) && res != OK ==> fs.faulted
    ensures old(fs.faulted) ==> fs.faulted
  {
    hide FatBytes, Overlaid, Mirrored, FatTable.Links, FatTable.Bits, BitmapBytes, FatValue, SameOutsideTables, BitmapIsMeta, FATFS.WindowOk, Geometry.Ok, Masked;
    hide CallOk, Freeable, Freeing, ClearedBits, Unlinked, StatusLeft, LeftOnFat, Leading, Disjoint, BitsAgree, CountOk, Owned, Denotes;
    ghost var g, u, f, ch := fs.g, fs.View(), fs.Links(), if key in fs.chains then fs.chains[key] else [];
    ghost var ok, free, was, a := CallOk(fs, obj, clst, pclst, key, at, mark), fs.freeClst, fs.Bits(), obj.Status();
    SameTablesRefl(g, u);
    if ok {
      CallParts(fs, obj, clst, pclst, key, at, mark);
    }
    if clst < 2 || clst >= fs.g.nFatent {
      return INT_ERR;
    }
    res := Unlink(fs, obj, pclst);
    if res != OK {
      return;
    }
    ghost var v, now := fs.View(), fs.Links();
    if ok {
      StartFreeing(g, f, now, a, was, fs.chains, key, at, pclst, mark);
      RoomToFree(g, fs.chains, key, at, free);
    }
    res := FreeRuns(fs, obj, clst, was, ch, at, mark);
    SameTablesTwice(g, u, v, fs.View());
    if res != OK {
      return;
    }
    ghost var w, bits := fs.View(), fs.Bits();
    if ok {
      UnlinkedOnFat(g, f, now, a, ch, at, pclst);
    }
    res := Settle(fs, obj, pclst, ch, at);
    SameTablesTwice(g, u, w, fs.View());
    if res == OK && ok && mark != LastOf(fs.chains, key) + 1 {
      FreedList(g, was, bits, fs.chains, key, at, free, fs.freeClst);
      if at > 0 {
        RestDenoted(g, f, now, a, ch, at, pclst, obj.stat);
      }
      CutList(fs, key, at);
    }
  }

  // The record of the lists follows.
  ghost method CutList(fs: FATFS, key: nat, at: nat)
    requires fs.WindowOk() && fs.BitmapOk() && key in fs.chains && at < |fs.chains[key]|
    requires var l := Cut(fs.chains, key, at);
             && Disjoint(fs.g, l) && BitsAgree(fs.g, fs.Bits(), l) && CountOk(fs.g, l, fs.freeClst) && forall c :: c in fs.sys ==> Owned(l, c)
    modifies fs`chains
    ensures fs.Valid() && fs.chains == Cut(old(fs.chains), key, at) && fs.View() == old(fs.View()) && fs.Links() == old(fs.Links())
  {
    hide FatBytes, Overlaid, Mirrored, FatTable.Links, FatTable.Bits, BitmapBytes, Disjoint, BitsAgree, CountOk, Owned;
    fs.chains := Cut(fs.chains, key, at);
  }

  function LastOf(chains: ClusterLists, key: nat): nat {
    if key in chains && chains[key] != [] then chains[key][|chains[key]| - 1] else 0
  }

  /** The last cluster stays marked as used exactly in that case. */
  lemma LastRunKept(g: Geometry, was: seq<bool>, now: seq<bool>, ch: seq<nat>, at: nat, mark: nat)
    requires ClusterList(g, ch) && at < |ch| && AllUsed(was, ch, at) && |was| == g.nFatent - 2
    requires ClearedBits(g, was, now, ch, at, FreedUpTo(ch, at, mark))
    ensures Used(now, ch[|ch| - 1]) <==> mark == ch[|ch| - 1] + 1
  {
    var last := |ch| - 1;
    assert Used(was, ch[last]) && g.IsCluster(ch[last]);
    if mark == ch[last] + 1 {
      RunNotFreed(g, ch, at, RunStart(ch, at, last), last, last);
    } else {
      assert InPart(ch, at, |ch|, ch[last]);
    }
  }

  /** Such a volume: removing the file in the last cluster of the largest exFAT volume is a proper call of
      remove_chain, and it leaves every mark as it is. */
  lemma LastRunLost(f: seq<dword>, was: seq<bool>, now: seq<bool>)
    requires |f| == 0x7FFF_FFFF && (forall c :: 0 <= c < |f| ==> f[c] < 0x8000_0000) && |was| == 0x7FFF_FFFD && Used(was, 0x7FFF_FFFE)
    ensures var g, ch, mark := LinkMap.Largest(), [0x7FFF_FFFE], 0x7FFF_FFFF;
            && Callable(g, f, LinkMap.LastFile(), ch, ch[0], 0, 0, mark)
            && (ClearedBits(g, was, now, ch, 0, FreedUpTo(ch, 0, mark)) <==> now == was)
  {
    hide FatValue, Denotes, Answers;
    LinkMap.MapFailsAtVolumeEnd(f);
    var g, ch, mark := LinkMap.Largest(), [0x7FFF_FFFE], 0x7FFF_FFFF;
    assert FreedUpTo(ch, 0, mark) == 0;
    if ClearedBits(g, was, now, ch, 0, 0) {
      forall i | 0 <= i < |was| ensures now[i] == was[i] {
        assert g.IsCluster(i + 2);
        assert now[(i + 2) - 2] <==> was[(i + 2) - 2] && !InPart(ch, 0, 0, i + 2);
      }
    }
  }
}
