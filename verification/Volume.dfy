/** A mounted volume: the drive it lives on and the one-sector write-back
    window through which all metadata is read and written. */
module Volume {
  import opened Bytes
  import opened Layout
  import opened FatTable
  import opened Chains

  class FFOBJID {
    var stat: nat
    var sclust: dword
    var nCont: dword
    var nFrag: dword
    var objsize: nat

    function Status(): Alloc
      reads this
    {
      Alloc(stat, sclust, nCont, nFrag, objsize)
    }
  }

  class FATFS {
    const g: Geometry
    var disk: seq<Sector>
    const win: array<byte>
    var winsect: nat
    var wflag: bool
    var freeClst: dword
    var lastClst: dword
    var fsiFlag: nat
    // A drive call has failed since mounting.
    ghost var faulted: bool
    // The two FATs agreed when the volume was mounted.
    ghost const agreed: bool
    // The cluster lists allocated on the volume, by first cluster.
    ghost var chains: ClusterLists
    // Clusters that hold metadata: directories and the allocation bitmap.
    ghost var sys: set<nat>

    /** The end of mount_volume: the window holds a sector that was read, or none. */
    constructor (g: Geometry, disk: seq<Sector>, win: array<byte>, winsect: nat, freeClst: dword, lastClst: dword, fsiFlag: nat,
                 ghost faulted: bool, ghost agreed: bool, ghost chains: ClusterLists, ghost sys: set<nat>)
      requires win.Length == SECTOR_SIZE && (winsect < |disk| ==> win[..] == disk[winsect])
      requires agreed && g.Ok() && |disk| == g.total ==> Mirrored(g, disk, false, winsect)
      ensures this.g == g && this.disk == disk && this.win == win && this.winsect == winsect && !wflag && this.faulted == faulted
      ensures this.freeClst == freeClst && this.lastClst == lastClst && this.fsiFlag == fsiFlag
      ensures this.agreed == agreed && this.chains == chains && this.sys == sys
      ensures View() == disk && (g.Ok() && |disk| == g.total ==> WindowOk())
    {
      this.g, this.disk, this.win, this.winsect, wflag := g, disk, win, winsect, false;
      this.freeClst, this.lastClst, this.fsiFlag := freeClst, lastClst, fsiFlag;
      this.faulted, this.agreed, this.chains, this.sys := faulted, agreed, chains, sys;
    }

    ghost predicate WindowOk()
      reads this, win
      ensures WindowOk() ==> g.Ok() && |disk| == g.total
    {
      && g.Ok() && |disk| == g.total && win.Length == SECTOR_SIZE
      && (wflag ==> g.Meta(sys, winsect))
      && (!wflag && g.Meta(sys, winsect) ==> win[..] == disk[winsect])
      && (agreed && !faulted ==> Mirrored(g, disk, wflag, winsect))
    }

    /** The logical contents of the volume. */
    ghost function View(): (v: seq<Sector>)
      reads this, win
      ensures |v| == |disk|
    {
      Overlaid(disk, wflag, winsect, win[..])
    }

    /** The bytes of the first FAT as the volume logically has them. */
    ghost function Fat(): (b: seq<byte>)
      requires WindowOk()
      reads this, win
    {
      FatBytes(g, View())
    }

    /** The FAT as the link of every cluster. */
    ghost function Links(): (f: seq<dword>)
      requires WindowOk()
      reads this, win
      ensures |f| == g.nFatent && forall c :: 0 <= c < g.nFatent ==> f[c] < 0x8000_0000
    {
      FatTable.Links(g.fsType, Fat(), g.nFatent)
    }

    /** The bitmap of an exFAT volume lies in clusters reached through the window. */
    ghost predicate BitmapOk()
      reads this`sys
    {
      g.fsType == EXFAT && BitmapIsMeta(g, sys)
    }

    ghost function Bits(): (b: seq<bool>)
      requires WindowOk() && g.fsType == EXFAT
      reads this, win
      ensures |b| == g.nFatent - 2
    {
      FatTable.Bits(g, BitmapBytes(g, View()))
    }

    /** The FAT, or the bitmap, says what the cluster lists say. */
    ghost predicate TableOk()
      requires WindowOk()
      reads this, win
    {
      if g.fsType == EXFAT then BitmapOk() && BitsAgree(g, Bits(), chains) else FatAgrees(g, Links(), chains)
    }

    /** Disjoint cluster lists, metadata among them, a free count that is right when
        it is known. */
    ghost predicate ListsOk()
      reads this`chains, this`sys, this`freeClst
    {
      Disjoint(g, chains) && CountOk(g, chains, freeClst) && forall c :: c in sys ==> Owned(chains, c)
    }

    ghost predicate Valid()
      reads this, win
      ensures Valid() ==> WindowOk()
    {
      WindowOk() && ListsOk() && TableOk()
    }

    // disk_read
    method DiskRead(sect: nat, n: nat) returns (ok: bool, data: seq<Sector>)
      modifies this`faulted
      ensures ok ==> sect + n <= |disk| && data == disk[sect..sect + n]
      ensures faulted == (old(faulted) || !ok)
    {
      ok, data := *, [];
      if sect + n > |disk| {
        ok := false;
      }
      if ok {
        data := disk[sect..sect + n];
      } else {
        faulted := true;
      }
    }

    // disk_write; a failed write leaves the addressed sectors unspecified.
    method DiskWrite(sect: nat, data: seq<Sector>) returns (ok: bool)
      modifies this`disk, this`faulted
      ensures |disk| == |old(disk)|
      ensures ok ==> sect + |data| <= |disk| && forall i :: 0 <= i < |data| ==> disk[sect + i] == data[i]
      ensures forall s :: 0 <= s < |disk| && !(sect <= s < sect + |data|) ==> disk[s] == old(disk)[s]
      ensures faulted == (old(faulted) || !ok)
    {
      ok := *;
      if sect + |data| > |disk| {
        ok := false;
      } else {
        var stored: seq<Sector> := *;
        if ok {
          stored := data;
        }
        if |stored| == |data| {
          disk := disk[..sect] + stored + disk[sect + |data|..];
        }
      }
      if !ok {
        faulted := true;
      }
    }

    // sync_window
    method SyncWindow() returns (res: FRESULT)
      requires WindowOk()
      modifies this`disk, this`faulted, this`wflag
      ensures WindowOk()
      ensures SameView(g, old(View()), View())
      ensures res == OK ==> !wflag
      ensures res != OK ==> res == DISK_ERR && faulted
      ensures old(faulted) ==> faulted
      ensures res == OK && g.Meta(sys, winsect) ==> disk[winsect] == win[..]
    {
      res := OK;
      if wflag {
        var ok := DiskWrite(winsect, [win[..]]);
        if ok {
          wflag := false;
          assert disk[winsect] == [win[..]][0];
          if g.fatbase <= winsect < g.fatbase + g.fsize {
            if g.nFats == 2 {
              var _ := DiskWrite(winsect + g.fsize, [win[..]]);
            }
          }
        } else {
          res := DISK_ERR;
        }
      }
    }

    // move_window
    method MoveWindow(sect: nat) returns (res: FRESULT)
      requires WindowOk() && g.Meta(sys, sect)
      modifies this`disk, this`faulted, this`wflag, this`winsect, win
      ensures WindowOk()
      ensures SameView(g, old(View()), View()) && Fat() == old(Fat())
      ensures res == OK ==> winsect == sect && win[..] == View()[sect] == old(View())[sect]
      ensures res != OK ==> res == DISK_ERR && faulted
      ensures old(faulted) ==> faulted
    {
      res := OK;
      if sect != winsect {
        res := SyncWindow();
        if res == OK {
          var ok, data := DiskRead(sect, 1);
          var now := sect;
          if ok {
            var d := data[0];
            forall i | 0 <= i < SECTOR_SIZE { win[i] := d[i]; }
            assert win[..] == d == disk[sect];
          } else {
            now := NO_SECTOR;
            res := DISK_ERR;
          }
          winsect := now;
        }
      }
      FatInside(g);
      SameRegion(old(View()), View(), g.fatbase, g.fsize);
    }

    // Store bytes in the window and mark it dirty.
    method StoreWindow(i: nat, x: seq<byte>)
      requires WindowOk() && g.Meta(sys, winsect) && i + |x| <= SECTOR_SIZE
      modifies this`wflag, win
      ensures WindowOk()
      ensures View() == old(View())[winsect := Splice(old(View())[winsect], i, x)]
    {
      forall k | 0 <= k < |x| { win[i + k] := x[k]; }
      wflag := true;
      assert win[..] == Splice(old(win[..]), i, x);
      assert old(View())[winsect] == old(win[..]);
      assert View() == old(View())[winsect := Splice(old(View())[winsect], i, x)];
    }

    // Read sectors that do not go through the window.
    method ReadData(sect: nat, n: nat) returns (ok: bool, data: seq<Sector>)
      requires WindowOk() && forall s :: sect <= s < sect + n ==> !g.Meta(sys, s)
      modifies this`faulted
      ensures WindowOk() && View() == old(View())
      ensures ok ==> sect + n <= |View()| && data == View()[sect..sect + n]
      ensures !ok ==> faulted
      ensures old(faulted) ==> faulted
    {
      ok, data := DiskRead(sect, n);
    }

    // Write sectors that do not go through the window.
    method WriteData(sect: nat, data: seq<Sector>) returns (ok: bool)
      requires WindowOk() && sect + |data| <= |disk|
      requires forall s :: sect <= s < sect + |data| ==> !g.Meta(sys, s) && !g.InFat1(s) && !g.InFat2(s)
      modifies this`disk, this`faulted
      ensures WindowOk() && |View()| == |old(View())|
      ensures ok ==> forall i :: 0 <= i < |data| ==> View()[sect + i] == data[i]
      ensures forall s :: 0 <= s < |View()| && !(sect <= s < sect + |data|) ==> View()[s] == old(View())[s]
      ensures !ok ==> faulted
      ensures old(faulted) ==> faulted
    {
      ok := DiskWrite(sect, data);
      assert forall s :: g.InFat1(s) && g.nFats == 2 ==> g.InFat2(s + g.fsize);
    }
  }
}
