/** Several open files on one volume: what one call does to a file leaves the others alone. */
module Files {
  import opened Bytes
  import opened Layout
  import opened FatTable
  import opened Chains
  import opened Volume
  import opened FileData
  import opened ClusterMap
  import opened File

  // What an object denotes depends on the links of its own clusters only.
  lemma DenotesSame(g: Geometry, f: seq<dword>, f': seq<dword>, a: Alloc, ch: seq<nat>)
    requires g.fsType == EXFAT && Denotes(g, f, a, ch) && |f'| == |f| && forall c :: c in ch && c < |f| ==> f'[c] == f[c]
    ensures Denotes(g, f', a, ch)
  {
    assert forall i :: 0 <= i < |ch| ==> ch[i] in ch;
    if a.stat != 2 {
      assert OnFat(f', ch, LinkedFrom(a), LinkedTo(a, ch));
    }
  }

  // Disjoint lists have disjoint sectors.
  lemma OtherSector(g: Geometry, sys: set<nat>, ch: seq<nat>, oc: seq<nat>, q: nat)
    requires g.Ok() && ClusterList(g, oc) && PlainData(sys, oc) && BitmapIsMeta(g, sys) && q < g.csize * |oc|
    requires forall c :: c in oc ==> c !in ch
    ensures 0 <= SectorOf(g, oc, q) < g.total && !g.InTables(SectorOf(g, oc, q)) && !InList(g, ch, SectorOf(g, oc, q))
  {
    hide Geometry.Ok, ClusterList, PlainData, SectorOf, Geometry.Meta, Geometry.InCluster;
    FileSectorIsData(g, sys, oc, q);
    SectorInCluster(g, oc, q);
    var s := SectorOf(g, oc, q);
    forall i | 0 <= i < |ch| ensures !g.InCluster(ch[i], s) {
      assert oc[q / g.csize] in oc && ch[i] in ch;
      if g.InCluster(ch[i], s) {
        ClustersDisjoint(g, ch[i], oc[q / g.csize], s);
      }
    }
  }

  /** The sectors of another list are the same as before. */
  lemma OtherSectorsKept(g: Geometry, sys: set<nat>, ch: seq<nat>, oc: seq<nat>, v: seq<Sector>, w: seq<Sector>)
    requires g.Ok() && ClusterList(g, oc) && PlainData(sys, oc) && BitmapIsMeta(g, sys) && |v| == g.total
    requires SameElsewhere(g, ch, v, w) && forall c :: c in oc ==> c !in ch
    ensures |w| == g.total
    ensures forall q: nat :: q < g.csize * |oc| ==> 0 <= SectorOf(g, oc, q) < |v| && w[SectorOf(g, oc, q)] == v[SectorOf(g, oc, q)]
  {
    hide Geometry.Ok, ClusterList, PlainData, SectorOf, Geometry.InTables, InList, BitmapIsMeta, LinksElsewhere;
    forall q: nat | q < g.csize * |oc|
      ensures 0 <= SectorOf(g, oc, q) < |v| && w[SectorOf(g, oc, q)] == v[SectorOf(g, oc, q)]
    {
      OtherSector(g, sys, ch, oc, q);
    }
  }

  lemma OverlaidElsewhere(g: Geometry, ch: seq<nat>, v: seq<Sector>, w: seq<Sector>, dirty: bool, s: nat, b: seq<byte>, oc: seq<nat>)
    requires |v| == |w| && forall q: nat :: q < g.csize * |oc| && g.csize > 0 ==> 0 <= SectorOf(g, oc, q) < |v| && w[SectorOf(g, oc, q)] == v[SectorOf(g, oc, q)]
    ensures |Overlaid(v, dirty, s, b)| == |Overlaid(w, dirty, s, b)| == |v|
    ensures forall q: nat :: q < g.csize * |oc| && g.csize > 0 ==>
              0 <= SectorOf(g, oc, q) < |v| && Overlaid(w, dirty, s, b)[SectorOf(g, oc, q)] == Overlaid(v, dirty, s, b)[SectorOf(g, oc, q)]
  {
  }

  /** The contents of another file, with its own buffer laid over the volume, are the same. */
  lemma OtherContent(g: Geometry, sys: set<nat>, ch: seq<nat>, oc: seq<nat>, v: seq<Sector>, w: seq<Sector>,
                     size: nat, dirty: bool, sect: nat, b: seq<byte>)
    requires g.Ok() && ClusterList(g, oc) && PlainData(sys, oc) && BitmapIsMeta(g, sys) && |v| == g.total && Holds(g, oc, size)
    requires SameElsewhere(g, ch, v, w) && forall c :: c in oc ==> c !in ch
    ensures |Overlaid(v, dirty, sect, b)| == |Overlaid(w, dirty, sect, b)| == g.total
    ensures Content(g, Overlaid(w, dirty, sect, b), oc, size) == Content(g, Overlaid(v, dirty, sect, b), oc, size)
  {
    hide Overlaid, SectorOf, ClusterList, PlainData, Geometry.Ok, SameElsewhere, BitmapIsMeta, Holds;
    OtherSectorsKept(g, sys, ch, oc, v, w);
    OverlaidElsewhere(g, ch, v, w, dirty, sect, b, oc);
    ContentKept(g, Overlaid(v, dirty, sect, b), Overlaid(w, dirty, sect, b), oc, oc, size);
  }

  lemma OtherBuffer(g: Geometry, sys: set<nat>, ch: seq<nat>, oc: seq<nat>, v: seq<Sector>, w: seq<Sector>,
                    dirty: bool, sect: nat, sq: nat, b: seq<byte>)
    requires g.Ok() && ClusterList(g, oc) && PlainData(sys, oc) && BitmapIsMeta(g, sys) && |v| == g.total
    requires SameElsewhere(g, ch, v, w) && forall c :: c in oc ==> c !in ch
    requires BufferPlaced(g, oc, sect, sq) && Buffered(v, sect, dirty, b)
    ensures Buffered(w, sect, dirty, b)
  {
    hide SectorOf, ClusterList, PlainData, Geometry.Ok, SameElsewhere, BitmapIsMeta;
    OtherSectorsKept(g, sys, ch, oc, v, w);
  }

  // The object of another file denotes the same list on the new FAT.
  lemma OtherDenotes(g: Geometry, ch: seq<nat>, oc: seq<nat>, a: Alloc, v: seq<Sector>, w: seq<Sector>, chains: ClusterLists, key: nat)
    requires g.Ok() && |v| == |w| == g.total && LinksElsewhere(g, ch, v, w) && (forall c :: c in oc ==> c !in ch)
    requires Denotes(g, Links(g.fsType, FatBytes(g, v), g.nFatent), a, oc)
    requires g.fsType != EXFAT ==> key in chains && chains[key] == oc && FatAgrees(g, Links(g.fsType, FatBytes(g, w), g.nFatent), chains)
    ensures Denotes(g, Links(g.fsType, FatBytes(g, w), g.nFatent), a, oc)
  {
    if g.fsType == EXFAT {
      ListNonEmpty(g, v, a, oc);
      DenotesSame(g, Links(g.fsType, FatBytes(g, v), g.nFatent), Links(g.fsType, FatBytes(g, w), g.nFatent), a, oc);
    }
  }

  lemma ListNonEmpty(g: Geometry, v: seq<Sector>, a: Alloc, ch: seq<nat>)
    requires g.Ok() && |v| == g.total && Denotes(g, Links(g.fsType, FatBytes(g, v), g.nFatent), a, ch)
    ensures forall c :: c in ch ==> g.IsCluster(c)
  {
  }

  lemma ListsApart(g: Geometry, chains: ClusterLists, k: nat, l: nat)
    requires Disjoint(g, chains) && k != l && l in chains
    ensures forall c :: c in chains[l] ==> !(k in chains && c in chains[k])
  {
  }

  /** Whatever f_write, f_read or f_lseek did to fp: a different open file fq on the volume is
      still open in the same place and has the same contents; and its link map, if it has one, still fits. */
  twostate lemma OtherFileKept(fp: FIL, fq: FIL)
    requires fp.fs == fq.fs && old(fq.Ok()) && unchanged(fq) && unchanged(fq.obj) && unchanged(fq.buf)
    requires fp.fs.Valid() && fp.fs.sys == old(fp.fs.sys) && (fq.obj.sclust != 0 ==> fq.obj.sclust != fp.obj.sclust)
    requires fp.fs.chains == old(fp.fs.chains) || ListGrew(old(fp.fs.chains), fp.fs.chains, fp.obj.sclust)
    requires SameElsewhere(fp.fs.g, fp.List(), old(fp.fs.View()), fp.fs.View())
    ensures fq.Ok() && fq.Data() == old(fq.Data())
    ensures old(Mapped(fq)) && (fq.cltbl != null ==> unchanged(fq.cltbl)) ==> Mapped(fq)
  {
    hide MapOf;
    hide FatTable.Links, FatBytes, BitmapBytes, Mirrored, Overlaid, FatAgrees, BitsAgree, SectorOf, ClusterIndex, Denotes, Content, Holds, PlainData, Buffered, SameElsewhere, FATFS.TableOk;
    hide Sized, ClusterList, Disjoint, CountOk, Geometry.Ok, Geometry.Meta, BitmapIsMeta;
    if !old(fq.Empty()) {
      var g, oc, v, w := fq.fs.g, old(fq.List()), old(fq.fs.View()), fq.fs.View();
      assert fq.buf[..] == old(fq.buf[..]);
      assert old(ClusterList(g, fq.List()) && Holds(g, fq.List(), fq.obj.objsize) && Buffered(v, fq.sect, fq.dirty, fq.buf[..]));
      assert old(BufferPlaced(g, fq.List(), fq.sect, fq.sq));
      hide FATFS.WindowOk, BufferPlaced;
      ListsOf(fp.fs);
      FatSays(fp.fs);
      OtherState(g, fp.fs.sys, fp.fs.chains, fp.obj.sclust, fp.List(), fq.obj.sclust, fq.obj.Status(), v, w, fq.dirty, fq.sect, fq.sq, fq.buf[..]);
    }
  }

  lemma OtherState(g: Geometry, sys: set<nat>, chains: ClusterLists, key: nat, ch: seq<nat>, other: nat, a: Alloc,
                   v: seq<Sector>, w: seq<Sector>, dirty: bool, sect: nat, sq: nat, b: seq<byte>)
    requires g.Ok() && Disjoint(g, chains) && BitmapIsMeta(g, sys) && |v| == |w| == g.total && SameElsewhere(g, ch, v, w)
    requires key != other && other in chains && ch == if key in chains then chains[key] else []
    requires var oc := chains[other];
             && ClusterList(g, oc) && PlainData(sys, oc) && Holds(g, oc, a.objsize) && BufferPlaced(g, oc, sect, sq)
             && Buffered(v, sect, dirty, b) && Denotes(g, Links(g.fsType, FatBytes(g, v), g.nFatent), a, oc)
    requires g.fsType != EXFAT ==> FatAgrees(g, Links(g.fsType, FatBytes(g, w), g.nFatent), chains)
    ensures Denotes(g, Links(g.fsType, FatBytes(g, w), g.nFatent), a, chains[other]) && Buffered(w, sect, dirty, b)
    ensures |Overlaid(v, dirty, sect, b)| == |Overlaid(w, dirty, sect, b)| == g.total
    ensures Content(g, Overlaid(w, dirty, sect, b), chains[other], a.objsize) == Content(g, Overlaid(v, dirty, sect, b), chains[other], a.objsize)
  {
    hide FatTable.Links, FatBytes, Overlaid, FatAgrees, SectorOf, Denotes, Content, Holds, PlainData, Buffered, ClusterList, Geometry.Ok, BitmapIsMeta, BufferPlaced;
    ListsApart(g, chains, key, other);
    hide Disjoint;
    ElsewhereLinks(g, ch, v, w);
    OtherContent(g, sys, ch, chains[other], v, w, a.objsize, dirty, sect, b);
    OtherBuffer(g, sys, ch, chains[other], v, w, dirty, sect, sq, b);
    OtherDenotes(g, ch, chains[other], a, v, w, chains, other);
  }

  lemma ListsOf(fs: FATFS)
    requires fs.Valid()
    ensures fs.g.Ok() && Disjoint(fs.g, fs.chains) && |fs.View()| == fs.g.total && BitmapIsMeta(fs.g, fs.sys)
  {
  }

  lemma FatSays(fs: FATFS)
    requires fs.Valid()
    ensures fs.g.fsType != EXFAT ==> FatAgrees(fs.g, FatTable.Links(fs.g.fsType, FatBytes(fs.g, fs.View()), fs.g.nFatent), fs.chains)
  {
  }

  lemma ElsewhereLinks(g: Geometry, ch: seq<nat>, v: seq<Sector>, w: seq<Sector>)
    requires SameElsewhere(g, ch, v, w)
    ensures LinksElsewhere(g, ch, v, w) && |v| == |w|
  {
  }
}
