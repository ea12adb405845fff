/** dir_find on FAT12/16/32: the one-pass search against what it is to find. */
module DirFind {
  import opened Arith
  import opened Bytes
  import opened Layout
  import opened FatTable
  import opened Chains
  import opened Volume
  import opened DirEntry
  import opened Directory
  import opened Lfn
  import Free

  const DDEM: byte := 0xE5
  const AM_VOL := 8

  function Attr(e: Entry): byte {
    e[DIR_Attr] % 0x40
  }

  // A deleted entry or a volume label.
  predicate IsBlank(e: Entry) {
    e[0] == DDEM || (Attr(e) / AM_VOL % 2 == 1 && Attr(e) != AM_LFN)
  }

  predicate IsLong(e: Entry) {
    !IsBlank(e) && Attr(e) == AM_LFN
  }

  predicate IsShort(e: Entry) {
    !IsBlank(e) && Attr(e) != AM_LFN
  }

  // Number of an entry of a long name, without the mark of the last one.
  function Number(e: Entry): byte {
    if IsLast(e) then e[LDIR_Ord] - LLEF else e[LDIR_Ord]
  }

  /** Entries a .. j-1 are the start of a long name that matches so far: the last part first, then
      numbers going down by one, one checksum, every part matching the buffer. */
  ghost predicate Run(up: word -> word, buf: seq<word>, es: seq<Entry>, a: nat, j: nat) {
    && a < j <= |es| && IsLast(es[a])
    && forall i :: a <= i < j ==> InRun(up, buf, es[a], es[i], i - a)
  }

  ghost predicate InRun(up: word -> word, buf: seq<word>, first: Entry, e: Entry, d: nat) {
    && IsLong(e) && (d > 0 ==> !IsLast(e)) && Number(e) as int == Number(first) - d
    && e[LDIR_Chksum] == first[LDIR_Chksum] && PartMatches(up, buf, e)
  }

  /** Short entry j belongs to a long name that is complete, has the right checksum and matches. */
  ghost predicate LongMatch(up: word -> word, buf: seq<word>, es: seq<Entry>, j: nat)
    requires j < |es|
  {
    exists a: nat :: Run(up, buf, es, a, j) && Number(es[a]) as int == j - a && es[a][LDIR_Chksum] == Sum(es[j][..11])
  }

  /** Entry j is one that dir_find looks for: a short entry whose long name matches, if long names
      are wanted, or whose short name matches, if the given name has one. */
  ghost predicate Selected(up: word -> word, buf: seq<word>, fn: seq<byte>, noLfn: bool, loss: bool, es: seq<Entry>, j: nat)
    requires j < |es|
  {
    IsShort(es[j]) && ((!noLfn && LongMatch(up, buf, es, j)) || (!loss && es[j][..11] == fn))
  }

  /** What ord and sum of dir_find say after j entries. */
  ghost predicate Tracking(up: word -> word, buf: seq<word>, noLfn: bool, es: seq<Entry>, j: nat, ord: byte, sum: byte) {
    if noLfn then ord == 0xFF
    else (exists a: nat :: Follows(up, buf, es, a, j, ord, sum)) || (ord == 0xFF && forall a: nat :: !Run(up, buf, es, a, j))
  }

  // A run from entry a on is under way, and ord entries are to come.
  ghost predicate Follows(up: word -> word, buf: seq<word>, es: seq<Entry>, a: nat, j: nat, ord: byte, sum: byte) {
    Run(up, buf, es, a, j) && ord as int == Number(es[a]) - (j - a) && sum == es[a][LDIR_Chksum]
  }

  lemma NoLastInside(up: word -> word, buf: seq<word>, es: seq<Entry>, a: nat, b: nat, j: nat)
    requires Run(up, buf, es, a, j) && b < j
    ensures a < b ==> !IsLast(es[b])
  {
    hide PartMatches;
    if a < b {
      assert InRun(up, buf, es[a], es[b], b - a);
    }
  }

  // There is one run at most: it starts at the latest last part.
  lemma OneRun(up: word -> word, buf: seq<word>, es: seq<Entry>, a: nat, b: nat, j: nat)
    requires Run(up, buf, es, a, j) && Run(up, buf, es, b, j)
    ensures a == b
  {
    NoLastInside(up, buf, es, a, b, j);
    NoLastInside(up, buf, es, b, a, j);
  }

  lemma RunShorter(up: word -> word, buf: seq<word>, es: seq<Entry>, a: nat, j: nat)
    requires Run(up, buf, es, a, j + 1)
    ensures InRun(up, buf, es[a], es[j], j - a) && (a < j ==> Run(up, buf, es, a, j))
  {
    hide InRun;
  }

  // dir_find's variables after an entry of a long name.
  function LongStep(ord: byte, sum: byte, e: Entry, matched: bool): (byte, byte) {
    var o, s := if IsLast(e) then Number(e) else ord, if IsLast(e) then e[LDIR_Chksum] else sum;
    (if Number(e) == o && s == e[LDIR_Chksum] && matched then (o as int + 0xFF) % 0x100 else 0xFF, s)
  }

  lemma NumberIsOrder(e: Entry)
    ensures Order(e) >= 1 ==> Number(e) >= 1
  {
  }

  /** One entry of a long name. */
  lemma LongStepTracks(up: word -> word, buf: seq<word>, es: seq<Entry>, j: nat, ord: byte, sum: byte)
    requires j < |es| && Tracking(up, buf, false, es, j, ord, sum) && IsLong(es[j]) && es[j][0] != 0
    ensures var st := LongStep(ord, sum, es[j], PartMatches(up, buf, es[j]));
            Tracking(up, buf, false, es, j + 1, st.0, st.1)
  {
    var st := LongStep(ord, sum, es[j], PartMatches(up, buf, es[j]));
    NumberIsOrder(es[j]);
    hide IsLong, Order;
    if st.0 != 0xFF {
      if IsLast(es[j]) {
        assert Follows(up, buf, es, j, j + 1, st.0, st.1);
      } else {
        assert ord != 0xFF;
        var a :| Follows(up, buf, es, a, j, ord, sum);
        assert Follows(up, buf, es, a, j + 1, st.0, st.1);
      }
    } else {
      var k := j + 1;
      forall a: nat ensures !Run(up, buf, es, a, k) {
        if Run(up, buf, es, a, k) {
          RunShorter(up, buf, es, a, j);
        }
      }
    }
  }

  /** Any other entry ends a run. */
  lemma OtherStepTracks(up: word -> word, buf: seq<word>, noLfn: bool, es: seq<Entry>, j: nat, sum: byte)
    requires j < |es| && !IsLong(es[j])
    ensures Tracking(up, buf, noLfn, es, j + 1, 0xFF, sum)
  {
    var k := j + 1;
    forall a: nat ensures !Run(up, buf, es, a, k) {
      if Run(up, buf, es, a, k) {
        RunShorter(up, buf, es, a, j);
      }
    }
  }

  lemma NothingTracked(up: word -> word, buf: seq<word>, noLfn: bool, es: seq<Entry>)
    ensures Tracking(up, buf, noLfn, es, 0, 0xFF, 0xFF)
  {
  }

  /** dir_find's test for a long name is right: it can rely on ord and sum. */
  lemma LongTest(up: word -> word, buf: seq<word>, noLfn: bool, es: seq<Entry>, j: nat, ord: byte, sum: byte)
    requires j < |es| && Tracking(up, buf, noLfn, es, j, ord, sum)
    ensures ord == 0 && sum == Sum(es[j][..11]) <==> !noLfn && LongMatch(up, buf, es, j)
  {
    hide InRun, Sum;
    if !noLfn && LongMatch(up, buf, es, j) {
      var a: nat :| Run(up, buf, es, a, j) && Number(es[a]) as int == j - a && es[a][LDIR_Chksum] == Sum(es[j][..11]);
      var b: nat :| Follows(up, buf, es, b, j, ord, sum);
      OneRun(up, buf, es, a, b, j);
    }
  }

  // More entries do not change what was found among the first ones.
  lemma RunPrefix(up: word -> word, buf: seq<word>, es: seq<Entry>, more: seq<Entry>, a: nat, j: nat)
    requires es <= more && j <= |es|
    ensures Run(up, buf, es, a, j) <==> Run(up, buf, more, a, j)
  {
    hide InRun;
  }

  lemma TrackingPrefix(up: word -> word, buf: seq<word>, noLfn: bool, es: seq<Entry>, more: seq<Entry>, j: nat, ord: byte, sum: byte)
    requires es <= more && j <= |es| && Tracking(up, buf, noLfn, es, j, ord, sum)
    ensures Tracking(up, buf, noLfn, more, j, ord, sum)
  {
    hide Run;
    forall a: nat ensures Run(up, buf, es, a, j) <==> Run(up, buf, more, a, j) {
      RunPrefix(up, buf, es, more, a, j);
    }
    if !noLfn && exists a: nat :: Follows(up, buf, es, a, j, ord, sum) {
      var a: nat :| Follows(up, buf, es, a, j, ord, sum);
      FollowsInside(up, buf, es, a, j, ord, sum);
      assert Follows(up, buf, more, a, j, ord, sum);
    }
  }

  lemma FollowsInside(up: word -> word, buf: seq<word>, es: seq<Entry>, a: nat, j: nat, ord: byte, sum: byte)
    requires Follows(up, buf, es, a, j, ord, sum)
    ensures a < j <= |es|
  {
  }

  lemma SelectedPrefix(up: word -> word, buf: seq<word>, fn: seq<byte>, noLfn: bool, loss: bool, es: seq<Entry>, more: seq<Entry>, j: nat)
    requires es <= more && j < |es|
    ensures Selected(up, buf, fn, noLfn, loss, es, j) <==> Selected(up, buf, fn, noLfn, loss, more, j)
  {
    forall a: nat ensures Run(up, buf, es, a, j) <==> Run(up, buf, more, a, j) {
      RunPrefix(up, buf, es, more, a, j);
    }
    hide Run, Sum;
    LongMatchPrefix(up, buf, es, more, j);
  }

  lemma LongMatchPrefix(up: word -> word, buf: seq<word>, es: seq<Entry>, more: seq<Entry>, j: nat)
    requires es <= more && j < |es|
    ensures LongMatch(up, buf, es, j) <==> LongMatch(up, buf, more, j)
  {
    hide Sum;
    forall a: nat ensures Run(up, buf, es, a, j) <==> Run(up, buf, more, a, j) {
      RunPrefix(up, buf, es, more, a, j);
    }
    if LongMatch(up, buf, es, j) {
      var a: nat :| Run(up, buf, es, a, j) && Number(es[a]) as int == j - a && es[a][LDIR_Chksum] == Sum(es[j][..11]);
      assert Run(up, buf, more, a, j) && more[a] == es[a];
    }
    if LongMatch(up, buf, more, j) {
      var a: nat :| Run(up, buf, more, a, j) && Number(more[a]) as int == j - a && more[a][LDIR_Chksum] == Sum(more[j][..11]);
      assert Run(up, buf, es, a, j) && more[a] == es[a];
    }
  }

  /** e is entry k of the table on the volume. */
  ghost predicate EntryAt(g: Geometry, fixed: bool, ch: seq<nat>, v: seq<Sector>, k: nat, e: Entry)
    requires g.csize > 0
  {
    exists dptr: nat, clust: nat, sect: nat, dir: nat ::
      Stands(g, fixed, ch, k, dptr, clust, sect, dir) && sect < |v| && dir + SZDIRE <= SECTOR_SIZE && v[sect][dir..dir + SZDIRE] == e
  }

  /** es are the first entries of the table. */
  ghost predicate AreEntries(g: Geometry, fixed: bool, ch: seq<nat>, v: seq<Sector>, es: seq<Entry>)
    requires g.csize > 0
  {
    forall k :: 0 <= k < |es| ==> EntryAt(g, fixed, ch, v, k, es[k])
  }

  /** The table lies in sectors that go through the window. */
  ghost predicate TableIsMeta(g: Geometry, sys: set<nat>, fixed: bool, ch: seq<nat>)
    requires g.csize > 0
  {
    forall k: nat, dptr: nat, clust: nat, sect: nat, dir: nat :: Stands(g, fixed, ch, k, dptr, clust, sect, dir) ==> g.Meta(sys, sect)
  }

  // The entry the directory object stands at, through the window.
  method LoadEntry(dp: DIR, ghost ch: seq<nat>, ghost k: nat, ghost v: seq<Sector>) returns (res: FRESULT, e: Entry)
    requires IsTable(dp.fs, dp.obj, ch) && At(dp, ch, k) && TableIsMeta(dp.fs.g, dp.fs.sys, Static(dp.fs.g, dp.obj.sclust), ch)
    requires SameView(dp.fs.g, v, dp.fs.View())
    modifies dp.fs`disk, dp.fs`faulted, dp.fs`wflag, dp.fs`winsect, dp.fs.win
    ensures dp.fs.WindowOk() && dp.fs.Fat() == old(dp.fs.Fat()) && SameView(dp.fs.g, v, dp.fs.View()) && IsTable(dp.fs, dp.obj, ch)
    ensures res == OK ==> EntryAt(dp.fs.g, Static(dp.fs.g, dp.obj.sclust), ch, v, k, e) && dp.fs.winsect == dp.sect
    ensures res != OK ==> res == DISK_ERR && dp.fs.faulted
    ensures old(dp.fs.faulted) ==> dp.fs.faulted
  {
    hide FatBytes, Overlaid, Mirrored, FatTable.Links, FatValue, ClusterList, Geometry.Ok, Leads, InTable;
    assert dp.dir + SZDIRE <= SECTOR_SIZE by { EntryInside(k); }
    assert dp.fs.g.Meta(dp.fs.sys, dp.sect);
    hide Stands;
    res := dp.fs.MoveWindow(dp.sect);
    e := dp.fs.win[dp.dir..dp.dir + SZDIRE];
    if res == OK {
      assert e == dp.fs.win[..][dp.dir..dp.dir + SZDIRE] == v[dp.sect][dp.dir..dp.dir + SZDIRE];
    }
  }

  lemma EntryInside(k: nat)
    ensures SZDIRE * k % SECTOR_SIZE + SZDIRE <= SECTOR_SIZE
  {
    DivUnique(SZDIRE * k, SECTOR_SIZE, k / 16, SZDIRE * (k % 16));
  }

  // dir_find, one entry: is it the one, and if not, what becomes of ord and sum?
  method TestEntry(up: word -> word, lfnbuf: seq<word>, fn: seq<byte>, noLfn: bool, loss: bool, e: Entry, ord0: byte, sum0: byte,
                   ghost es: seq<Entry>)
    returns (found: bool, ord: byte, sum: byte)
    requires |lfnbuf| == MAX_LFN + 1 && IsUpper(up) && |fn| == 11 && e[0] != 0
    requires |es| > 0 && es[|es| - 1] == e && Tracking(up, lfnbuf, noLfn, es, |es| - 1, ord0, sum0)
    ensures found <==> Selected(up, lfnbuf, fn, noLfn, loss, es, |es| - 1)
    ensures !found ==> Tracking(up, lfnbuf, noLfn, es, |es|, ord, sum)
  {
    hide Run, Sum, PartMatches, LongMatch, Tracking;
    ghost var j := |es| - 1;
    found, ord, sum := false, ord0, sum0;
    var a := Attr(e);
    if e[0] == DDEM || (a / AM_VOL % 2 == 1 && a != AM_LFN) {
      ord := 0xFF;
      OtherStepTracks(up, lfnbuf, noLfn, es, j, sum);
    } else if a == AM_LFN {
      if !noLfn {
        LongStepTracks(up, lfnbuf, es, j, ord, sum);
        var c := e[LDIR_Ord];
        if IsLast(e) {
          sum := e[LDIR_Chksum];
          c := c - LLEF;
          ord := c;
        }
        var next: byte := 0xFF;
        if c == ord && sum == e[LDIR_Chksum] {
          var matched := CmpLfn(up, lfnbuf, e);
          if matched {
            next := (ord as int + 0xFF) % 0x100;
          }
        }
        ord := next;
      } else {
        SkippedTracks(up, lfnbuf, es, j, ord, sum);
      }
    } else {
      LongTest(up, lfnbuf, noLfn, es, j, ord, sum);
      var s := SumSfn(e);
      if ord == 0 && sum == s {
        return true, ord, sum;
      }
      if !loss && e[..11] == fn {
        return true, ord, sum;
      }
      ord := 0xFF;
      OtherStepTracks(up, lfnbuf, noLfn, es, j, sum);
    }
  }

  // Without long names their entries are skipped.
  lemma SkippedTracks(up: word -> word, buf: seq<word>, es: seq<Entry>, j: nat, ord: byte, sum: byte)
    requires Tracking(up, buf, true, es, j, ord, sum)
    ensures Tracking(up, buf, true, es, j + 1, ord, sum)
  {
  }

  /** dir_find on FAT12/16/32: it stops at the first entry that is selected, and reports that there
      is none only after looking at every entry up to the end mark or the end of the table. es are
      the entries it looked at. */
  method DirFind(dp: DIR, up: word -> word, lfnbuf: seq<word>, fn: seq<byte>, noLfn: bool, loss: bool, ghost ch: seq<nat>)
    returns (res: FRESULT, ghost es: seq<Entry>)
    requires IsTable(dp.fs, dp.obj, ch) && dp.fs.g.fsType != EXFAT && TableIsMeta(dp.fs.g, dp.fs.sys, Static(dp.fs.g, dp.obj.sclust), ch)
    requires |lfnbuf| == MAX_LFN + 1 && IsUpper(up) && |fn| == 11
    modifies dp`dptr, dp`clust, dp`sect, dp`dir, dp.obj`stat, dp.fs`disk, dp.fs`faulted, dp.fs`wflag, dp.fs`winsect, dp.fs.win
    ensures dp.fs.WindowOk() && dp.fs.Fat() == old(dp.fs.Fat()) && SameView(dp.fs.g, old(dp.fs.View()), dp.fs.View()) && IsTable(dp.fs, dp.obj, ch)
    ensures AreEntries(dp.fs.g, Static(dp.fs.g, dp.obj.sclust), ch, old(dp.fs.View()), es)
    ensures forall j :: 0 <= j < |es| - 1 ==> es[j][0] != 0 && !Selected(up, lfnbuf, fn, noLfn, loss, es, j)
    ensures res == OK ==> |es| > 0 && es[|es| - 1][0] != 0 && At(dp, ch, |es| - 1) && dp.fs.winsect == dp.sect && Selected(up, lfnbuf, fn, noLfn, loss, es, |es| - 1)
    ensures res == NO_FILE ==> |es| > 0 && (es[|es| - 1][0] == 0
                               || (!Selected(up, lfnbuf, fn, noLfn, loss, es, |es| - 1) && !InTable(dp.fs.g, Static(dp.fs.g, dp.obj.sclust), ch, |es|)))
    ensures res == OK || res == NO_FILE || (res == DISK_ERR && dp.fs.faulted)
            || (res == INT_ERR && !InTable(dp.fs.g, Static(dp.fs.g, dp.obj.sclust), ch, 0))
  {
    hide FatBytes, Overlaid, Mirrored, FatTable.Links, FatValue, ClusterList, Geometry.Ok, Leads, Stands, InTable, Selected, Tracking, EntryAt, Walks, TableIsMeta, SameView;
    hide AreEntries, IsUpper, LongMatch, IsShort, FATFS.WindowOk, IsTable;
    es := [];
    Free.SameViewRefl(dp.fs.g, dp.fs.View());
    NoEntries(dp.fs.g, Static(dp.fs.g, dp.obj.sclust), ch, dp.fs.View());
    ghost var v, fixed := dp.fs.View(), Static(dp.fs.g, dp.obj.sclust);
    res := DirSdi(dp, 0, ch);
    if res != OK {
      return;
    }
    var ord: byte, sum: byte := 0xFF, 0xFF;
    NothingTracked(up, lfnbuf, noLfn, es);
    while true
      invariant IsTable(dp.fs, dp.obj, ch) && RootChained(dp) && At(dp, ch, |es|) && dp.sect != 0
      invariant dp.fs.WindowOk() && dp.fs.Fat() == old(dp.fs.Fat()) && SameView(dp.fs.g, v, dp.fs.View())
      invariant AreEntries(dp.fs.g, fixed, ch, v, es) && Tracking(up, lfnbuf, noLfn, es, |es|, ord, sum)
      invariant forall j :: 0 <= j < |es| ==> es[j][0] != 0 && !Selected(up, lfnbuf, fn, noLfn, loss, es, j)
      decreases MAX_DIR - SZDIRE * |es|
    {
      ghost var k, was := |es|, es;
      var e, found;
      res, e := LoadEntry(dp, ch, k, v);
      if res != OK {
        return;
      }
      es := es + [e];
      OneMoreEntry(dp.fs.g, fixed, ch, v, was, e);
      forall j | 0 <= j < k ensures !Selected(up, lfnbuf, fn, noLfn, loss, es, j) {
        SelectedPrefix(up, lfnbuf, fn, noLfn, loss, was, es, j);
      }
      if e[0] == 0 {
        return NO_FILE, es;
      }
      TrackingPrefix(up, lfnbuf, noLfn, was, es, k, ord, sum);
      found, ord, sum := TestEntry(up, lfnbuf, fn, noLfn, loss, e, ord, sum, es);
      if found {
        return;
      }
      InTableBound(dp, ch, k);
      ghost var u := dp.fs.View();
      res := DirNext(dp, ch, k);
      Free.SameViewTwice(dp.fs.g, v, u, dp.fs.View());
      if res != OK {
        return;
      }
    }
  }

  lemma NoEntries(g: Geometry, fixed: bool, ch: seq<nat>, v: seq<Sector>)
    requires g.csize > 0
    ensures AreEntries(g, fixed, ch, v, [])
  {
  }

  lemma OneMoreEntry(g: Geometry, fixed: bool, ch: seq<nat>, v: seq<Sector>, es: seq<Entry>, e: Entry)
    requires g.csize > 0 && AreEntries(g, fixed, ch, v, es) && EntryAt(g, fixed, ch, v, |es|, e)
    ensures AreEntries(g, fixed, ch, v, es + [e])
  {
  }

  lemma InTableBound(dp: DIR, ch: seq<nat>, k: nat)
    requires dp.fs.g.csize > 0 && At(dp, ch, k) && dp.fs.g.fsType != EXFAT
    ensures SZDIRE * k < MAX_DIR
  {
  }

  /** From index a on the entries are those of the name, the last part first, and then the short
      entry with the checksum they carry: what dir_register stores. */
  ghost predicate Stored(es: seq<Entry>, a: nat, name: seq<word>, sum: byte) {
    var n := Parts(name);
    && a + n < |es| && IsShort(es[a + n]) && sum == Sum(es[a + n][..11])
    && forall i :: 0 <= i < n ==> PartAt(es, a, name, sum, i)
  }

  // Entry a + i holds the part that dir_register stores there.
  ghost predicate PartAt(es: seq<Entry>, a: nat, name: seq<word>, sum: byte, i: nat)
    requires a + i < |es| && i < Parts(name)
  {
    IsPart(es[a + i], name, Parts(name) - i, sum)
  }

  // The entries of a name by number.
  function ByNumber(es: seq<Entry>, a: nat, n: nat): (r: seq<Entry>)
    requires a + n <= |es|
    ensures |r| == n && forall j :: 0 <= j < n ==> r[j] == es[a + (n - 1 - j)]
  {
    seq(n, j requires 0 <= j < n => es[a + (n - 1 - j)])
  }

  lemma StoredPart(es: seq<Entry>, a: nat, name: seq<word>, sum: byte, i: nat)
    requires IsName(name) && |name| > 0 && Stored(es, a, name, sum) && i < Parts(name)
    ensures (Parts(name) - i) * 13 >= |name| <==> i == 0
    ensures var e := es[a + i];
            IsLong(e) && (IsLast(e) <==> i == 0) && Number(e) == Parts(name) - i && e[LDIR_Chksum] == sum
  {
    assert PartAt(es, a, name, sum, i);
    PartsBound(name, Parts(name) - i);
    PartShape(es[a + i], name, Parts(name) - i, sum);
  }

  lemma PartShape(e: Entry, name: seq<word>, k: nat, sum: byte)
    requires IsPart(e, name, k, sum) && k <= 20
    ensures IsLong(e) && (IsLast(e) <==> |name| <= k * 13) && Number(e) == k && e[LDIR_Chksum] == sum
  {
    hide CharAt, LdWord;
  }

  /** The name is found, with the checksum test passed, if and only if the given name is equal to
      it up to case. */
  lemma StoredIsFound(up: word -> word, buf: seq<word>, given: seq<word>, es: seq<Entry>, a: nat, name: seq<word>, sum: byte)
    requires IsUpper(up) && Holding(buf, given) && IsName(name) && |name| > 0 && Stored(es, a, name, sum)
    ensures LongMatch(up, buf, es, a + Parts(name)) <==> SameName(up, given, name)
  {
    hide PartMatches, IsLong, IsShort, SameName, IsPart, IsName, IsUpper, LongMatch, Sum;
    var n := Parts(name);
    var byNumber := ByNumber(es, a, n);
    forall j | 0 <= j < n ensures IsPart(byNumber[j], name, j + 1, sum) {
      assert PartAt(es, a, name, sum, n - 1 - j);
    }
    MatchIsSame(up, buf, given, name, byNumber, sum);
    if SameName(up, given, name) {
      MatchingRun(up, buf, es, a, name, sum);
    }
    if LongMatch(up, buf, es, a + n) {
      RunMatches(up, buf, es, a, name, sum);
    }
  }

  lemma MatchingRun(up: word -> word, buf: seq<word>, es: seq<Entry>, a: nat, name: seq<word>, sum: byte)
    requires IsName(name) && |name| > 0 && |buf| == MAX_LFN + 1 && Stored(es, a, name, sum)
    requires var r := ByNumber(es, a, Parts(name)); forall j :: 0 <= j < |r| ==> PartMatches(up, buf, r[j])
    ensures LongMatch(up, buf, es, a + Parts(name))
  {
    hide PartMatches, IsLong, IsShort, IsPart, IsName, Sum;
    var n := Parts(name);
    var byNumber := ByNumber(es, a, n);
    StoredPart(es, a, name, sum, 0);
    forall i | a <= i < a + n ensures InRun(up, buf, es[a], es[i], i - a) {
      StoredPart(es, a, name, sum, i - a);
      assert es[i] == byNumber[n - 1 - (i - a)];
    }
    assert Run(up, buf, es, a, a + n);
  }

  lemma RunMatches(up: word -> word, buf: seq<word>, es: seq<Entry>, a: nat, name: seq<word>, sum: byte)
    requires IsName(name) && |name| > 0 && |buf| == MAX_LFN + 1 && Stored(es, a, name, sum)
    requires LongMatch(up, buf, es, a + Parts(name))
    ensures var r := ByNumber(es, a, Parts(name)); forall j :: 0 <= j < |r| ==> PartMatches(up, buf, r[j])
  {
    hide PartMatches, IsLong, IsShort, IsPart, IsName, Sum;
    var n := Parts(name);
    var byNumber := ByNumber(es, a, n);
    var b: nat :| Run(up, buf, es, b, a + n) && Number(es[b]) as int == a + n - b && es[b][LDIR_Chksum] == Sum(es[a + n][..11]);
    StartsAt(up, buf, es, a, name, sum, b);
    forall j | 0 <= j < n ensures PartMatches(up, buf, byNumber[j]) {
      assert InRun(up, buf, es[a], es[a + (n - 1 - j)], n - 1 - j);
    }
  }

  // A run that ends where the stored entries end starts where they start.
  lemma StartsAt(up: word -> word, buf: seq<word>, es: seq<Entry>, a: nat, name: seq<word>, sum: byte, b: nat)
    requires IsName(name) && |name| > 0 && Stored(es, a, name, sum) && Run(up, buf, es, b, a + Parts(name))
    ensures b == a
  {
    hide IsPart, PartMatches, Stored;
    StoredPart(es, a, name, sum, 0);
    NoLastInside(up, buf, es, b, a, a + Parts(name));
    if b > a {
      StoredPart(es, a, name, sum, b - a);
    }
  }

  /** dir_register, the entries of a long name in the order in which they are stored. */
  method LongEntries(lfnbuf: seq<word>, slots: seq<Entry>, sum: byte, ghost name: seq<word>) returns (es: seq<Entry>)
    requires |lfnbuf| == MAX_LFN + 1 && IsName(name) && 0 < |name| <= MAX_LFN && lfnbuf[..|name|] == name && lfnbuf[|name|] == 0
    requires |slots| == Parts(name)
    ensures |es| == Parts(name) && forall i :: 0 <= i < |es| ==> IsPart(es[i], name, Parts(name) - i, sum)
  {
    hide IsPart, IsName;
    es := [];
    var nEnt: nat := |slots|;
    while true
      invariant 0 < nEnt <= |slots| && |es| == |slots| - nEnt
      invariant forall i :: 0 <= i < |es| ==> IsPart(es[i], name, Parts(name) - i, sum)
      decreases nEnt
    {
      PartsBound(name, nEnt);
      NameIsText(name);
      var e := PutLfn(lfnbuf, slots[|es|], nEnt, sum, name);
      es := es + [e];
      nEnt := nEnt - 1;
      if nEnt == 0 {
        break;
      }
    }
  }
}
