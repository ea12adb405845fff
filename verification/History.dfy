/** The life of an exFAT object: any sequence of appending clusters and writing out fragments. */
module History {
  import opened Bytes
  import opened Layout
  import opened Chains
  import opened Deferred

  /** create_chain that has found cluster c, fill_first_frag, fill_last_frag with an end mark. */
  datatype Event = Append(c: dword) | FillFirst | FillLast

  /** The allocation state, the FAT, and the clusters that have been put in so far. */
  datatype Object = Object(a: Alloc, f: seq<dword>, ch: seq<nat>)

  const EOC: dword := 0x7FFF_FFFF

  ghost predicate Fits(g: Geometry, o: Object) {
    g.Ok() && g.fsType == EXFAT && Denotes(g, o.f, o.a, o.ch) && o.a.sclust == o.ch[0]
  }

  // A new object: its first cluster, contiguous.
  ghost predicate New(g: Geometry, o: Object) {
    g.Ok() && g.fsType == EXFAT && |o.f| == g.nFatent && o.a.stat == 2 && o.a.nFrag == 0 && o.ch == [o.a.sclust as nat] && g.IsCluster(o.a.sclust)
  }

  ghost predicate Allowed(g: Geometry, o: Object, e: Event) {
    e.Append? ==> g.IsCluster(e.c) && e.c !in o.ch
  }

  function After(o: Object, e: Event): (r: Object)
    requires |o.ch| > 0 && |o.f| < 0x1_0000_0000
    ensures |r.ch| > 0 && |r.f| == |o.f|
  {
    var last := o.ch[|o.ch| - 1];
    match e
    case Append(c) => Object(Appended(o.a, last, c), AppendedLinks(o.f, o.a, last, c), o.ch + [c])
    case FillFirst => if o.a.stat == 3 then Object(o.a.(stat := 0), FirstWritten(o.f, o.a.sclust, o.a.nCont), o.ch) else o
    case FillLast => Object(o.a.(nFrag := 0), PendingWritten(o.f, last, o.a.nFrag, EOC), o.ch)
  }

  function Ran(o: Object, es: seq<Event>): (r: Object)
    requires |o.ch| > 0 && |o.f| < 0x1_0000_0000
    ensures |r.ch| > 0 && |r.f| == |o.f|
  {
    if es == [] then o else After(Ran(o, es[..|es| - 1]), es[|es| - 1])
  }

  // Every event is allowed when it comes.
  ghost predicate Legal(g: Geometry, o: Object, es: seq<Event>)
    requires |o.ch| > 0 && |o.f| < 0x1_0000_0000
  {
    es != [] ==> Legal(g, o, es[..|es| - 1]) && Allowed(g, Ran(o, es[..|es| - 1]), es[|es| - 1])
  }

  lemma RanMore(o: Object, es: seq<Event>, e: Event)
    requires |o.ch| > 0 && |o.f| < 0x1_0000_0000
    ensures Ran(o, es + [e]) == After(Ran(o, es), e)
  {
    hide After;
    assert (es + [e])[..|es|] == es;
  }

  // The clusters that the events put in.
  function Clusters(es: seq<Event>): seq<nat> {
    if es == [] then [] else
      var e := es[|es| - 1];
      Clusters(es[..|es| - 1]) + if e.Append? then [e.c as nat] else []
  }

  lemma NewFits(g: Geometry, o: Object)
    requires New(g, o)
    ensures Fits(g, o) && |o.f| < 0x1_0000_0000
  {
  }

  lemma StepFits(g: Geometry, o: Object, e: Event)
    requires Fits(g, o) && Allowed(g, o, e)
    ensures |o.ch| > 0 && |o.f| < 0x1_0000_0000 && Fits(g, After(o, e))
    ensures var r := After(o, e); forall c :: g.IsCluster(c) && c !in r.ch ==> r.f[c] == o.f[c]
  {
    hide Denotes, Appended;
    var last := |o.ch| - 1;
    ListNonEmpty(g, o.f, o.a, o.ch);
    ListFits(g, o.ch);
    PendingInside(g, o.f, o.a, o.ch);
    match e {
      case Append(c) =>
        AppendedDenotes(g, o.f, o.a, o.ch, c);
        AppendedStart(o.a, o.ch[last], c);
      case FillFirst =>
        if o.a.stat == 3 {
          FlushFirst(g, o.f, o.a, o.ch);
          FirstInside(g, o.f, o.a, o.ch);
        }
      case FillLast =>
        EocAbove(g);
        FlushLast(g, o.f, o.a, o.ch, EOC);
    }
  }

  lemma EocAbove(g: Geometry)
    requires g.Ok()
    ensures EOC >= g.nFatent
  {
  }

  lemma AppendedStart(a: Alloc, last: nat, c: nat)
    ensures Appended(a, last, c).sclust == a.sclust
  {
  }

  // The links of the first fragment are those of clusters of the list.
  lemma FirstInside(g: Geometry, f: seq<dword>, a: Alloc, ch: seq<nat>)
    requires g.Ok() && g.fsType == EXFAT && Denotes(g, f, a, ch) && a.stat == 3 && a.sclust == ch[0]
    ensures forall c :: a.sclust <= c < a.sclust + a.nCont ==> c in ch
  {
    forall c | a.sclust <= c < a.sclust + a.nCont ensures c in ch {
      ConsecutiveAt(ch, a.nCont, c - ch[0]);
    }
  }

  /** After any history the object denotes one list: the clusters put in, in that order; no link of
      another cluster has changed. */
  lemma {:induction false} HistoryDenotes(g: Geometry, o: Object, es: seq<Event>)
    requires Fits(g, o) && |o.ch| > 0 && |o.f| < 0x1_0000_0000 && Legal(g, o, es)
    ensures var r := Ran(o, es);
            && Fits(g, r) && r.ch == o.ch + Clusters(es)
            && forall c :: g.IsCluster(c) && c !in r.ch ==> r.f[c] == o.f[c]
  {
    hide Denotes, Allowed, After;
    if es == [] {
      assert o.ch + [] == o.ch;
    } else {
      var n := |es| - 1;
      HistoryDenotes(g, o, es[..n]);
      var p := Ran(o, es[..n]);
      StepFits(g, p, es[n]);
      ListOf(p, es[n]);
      assert o.ch + Clusters(es[..n]) + [] == o.ch + Clusters(es[..n]);
      Together(o.ch, Clusters(es[..n]), if es[n].Append? then [es[n].c as nat] else []);
    }
  }

  lemma Together(a: seq<nat>, b: seq<nat>, c: seq<nat>)
    ensures a + b + c == a + (b + c)
  {
  }

  lemma ListOf(o: Object, e: Event)
    requires |o.ch| > 0 && |o.f| < 0x1_0000_0000
    ensures After(o, e).ch == o.ch + if e.Append? then [e.c as nat] else []
  {
  }

  /** When both fragments have been written out at the end of a history, the FAT spells exactly the
      clusters put in, unless the object is contiguous, when no link is needed. */
  lemma HistorySpelled(g: Geometry, o: Object, es: seq<Event>)
    requires New(g, o) && Legal(g, o, es)
    ensures var r := Ran(o, es + [FillFirst] + [FillLast]);
            && r.ch == o.ch + Clusters(es) && r.a.nFrag == 0
            && (r.a.stat == 2 || Spelled(g, r.f, r.ch))
            && (r.a.stat == 2 ==> Consecutive(r.ch, 0, |r.ch| - 1))
  {
    NewFits(g, o);
    HistoryDenotes(g, o, es);
    hide Denotes, Ran, Legal;
    var p := Ran(o, es);
    RanMore(o, es, FillFirst);
    RanMore(o, es + [FillFirst], FillLast);
    StepFits(g, p, FillFirst);
    StepFits(g, After(p, FillFirst), FillLast);
    var r := Ran(o, es + [FillFirst] + [FillLast]);
    StatusOf(g, r);
    if r.a.stat != 2 {
      FlushedIsSpelled(g, r.f, r.a, r.ch);
    }
  }

  lemma StatusOf(g: Geometry, o: Object)
    requires Fits(g, o) && o.a.stat != 3
    ensures o.a.stat == 0 || (o.a.stat == 2 && Consecutive(o.ch, 0, |o.ch| - 1))
  {
  }
}
