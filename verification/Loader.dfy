/** The boot loader's f_load: a file from the volume into its place in memory. */
module Loader {
  import opened Bytes
  import opened Layout
  import opened Volume
  import opened FileData
  import opened File

  const ZONE1 := "zone1.bin"

  /** The image is one that f_load copies: not that of zone 1, not empty, not larger than its region. */
  predicate Loadable(name: string, size: nat, loadSize: nat) {
    name != ZONE1 && 0 < size <= loadSize
  }

  /** f_load, fopen being the result of f_open. It copies the whole image into its region and changes
      no other memory. It also reports success for an image that it does not copy. */
  method Load(fopen: FRESULT, fp: FIL, name: string, mem: array<byte>, loadAddr: nat, loadSize: nat) returns (res: FRESULT)
    requires fp.fs.WindowOk() && (fopen == OK ==> fp.Ok() && fp.fptr == 0 && fp.canRead && fp.cltbl == null)
    requires loadAddr + loadSize <= mem.Length && mem != fp.buf && mem != fp.fs.win
    modifies fp.fs`disk, fp.fs`faulted, fp.fs`wflag, fp.fs`winsect, fp.fs.win, mem
    modifies fp`fptr, fp`clust, fp`sect, fp`sq, fp`dirty, fp`err, fp.obj`objsize, fp.buf
    ensures forall k :: 0 <= k < mem.Length && !(loadAddr <= k < loadAddr + loadSize) ==> mem[k] == old(mem[k])
    ensures fopen != OK ==> res == fopen && mem[..] == old(mem[..])
    ensures fopen == OK && !Loadable(name, old(fp.obj.objsize), loadSize) ==> res == OK && mem[..] == old(mem[..])
    ensures fopen == OK && Loadable(name, old(fp.obj.objsize), loadSize) && res == OK ==>
              loadAddr + |old(fp.Data())| <= loadAddr + loadSize && mem[..] == Splice(old(mem[..]), loadAddr, old(fp.Data()))
    ensures fopen == OK && res != OK ==> res == DISK_ERR && fp.fs.faulted
    ensures fopen == OK && res == OK ==> fp.Ok() && fp.Data() == old(fp.Data())
  {
    hide FIL.Ok, FIL.Data, FIL.List, FIL.Base, FIL.Tracked, FIL.Empty, FIL.View, FATFS.WindowOk, FATFS.Valid, FATFS.View, SameElsewhere, Splice, Holds, Geometry.Ok;
    res := fopen;
    if res == OK && fp.obj.objsize > 0 && fp.obj.objsize <= loadSize {
      if name != ZONE1 {
        var n;
        ghost var was, d := mem[..], fp.Data();
        SizeIs(fp);
        res, n := Read(fp, mem, loadAddr, fp.obj.objsize);
        WithinRegion(was, mem[..], loadAddr, loadSize, d[..n]);
        if res == OK {
          assert d[0..n] == d;
        }
      }
    }
  }

  lemma SizeIs(fp: FIL)
    requires fp.Ok()
    ensures |fp.Data()| == fp.obj.objsize
  {
    hide FATFS.Valid, FIL.Tracked, Content;
  }

  lemma WithinRegion(was: seq<byte>, now: seq<byte>, at: nat, size: nat, x: seq<byte>)
    requires |x| <= size && at + size <= |was| && now == Splice(was, at, x)
    ensures |now| == |was| && forall k :: 0 <= k < |was| && !(at <= k < at + size) ==> now[k] == was[k]
  {
  }
}
