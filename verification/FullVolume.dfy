/** Volumes filled past the end of a FAT that came out short; the verdict of the strict reader on every volume. */
module FullVolume {
  import opened Bytes
  import opened Geometry
  import opened ShortNames
  import opened LongNames
  import opened Tree
  import opened Directory
  import opened Allocator
  import opened Runs
  import opened Volume
  import opened Layout
  import opened Reader
  import opened ChainReads
  import opened RoundTrip
  import opened Numbers
  import opened Wrappers

  /** The first cluster without an entry in the first FAT. */
  function Limit(v: Vol): nat { 128 * v.fatSectors }

  // ---------------------------------------------------------------- links and data on such a volume

  /** An entry past the first FAT is read from the start of the second, which ends any chain. */
  lemma LateEntry(v: Vol, x: Body, c: nat)
    requires BodyOk(v, x) && Limit(v) <= c < |x.fat|
    ensures Links(FatEntry(Image(v, x), BpbOf(v), c), c, true)
  {
    hide Image, FatBytes, Reads, Get32, FatEntry;
    VolBounds(v);
    FatReads(v, x);
    var img, k := Image(v, x), c - Limit(v);
    var base := (RESERVED + v.fatSectors) * SECTOR;
    assert k <= 1 && base + 4 * k == RESERVED * SECTOR + 4 * c;
    FatWord(v, x.fat, k);
    ReadsPart(img, base, FatBytes(v, x.fat), 4 * k, 4 * k + 4);
    WordRead(img, base + 4 * k, x.fat[k]);
    LinkValue(v, img, c, x.fat[k]);
  }

  lemma WordRead(img: seq<byte>, off: nat, w: nat)
    requires w < 0x1_0000_0000 && Reads(img, off, Le32(w))
    ensures off + 4 <= |img| && Get32(img, off) == w
  {
    GetLe32(img, off, w);
  }

  /** The first m clusters of a run of n, as the image links them, when the last of the m ends a chain there. */
  lemma RunLinks(v: Vol, x: Body, s: nat, n: nat, m: nat)
    requires BodyOk(v, x) && IsRun(x.fat, s, n) && s >= FIRST_CLUSTER && 1 <= m <= n
    requires m == n || s + m - 1 == Limit(v)
    requires s + m - 1 <= Limit(v) || m == 1
    ensures RunInImage(v, Image(v, x), s, m)
  {
    hide Image, FatEntry;
    forall c | s <= c < s + m ensures Links(FatEntry(Image(v, x), BpbOf(v), c), c, c == s + m - 1) {
      if c < Limit(v) {
        LinkReads(v, x, c);
      } else {
        LateEntry(v, x, c);
      }
    }
  }

  /** Data behind the first eight bytes of the data area is read back on every volume. */
  lemma BlobTailReads(v: Vol, x: Body, i: nat, skip: nat)
    requires BodyOk(v, x) && i < |x.ns| && x.ns[i] > 0 && skip <= |x.blobs[i]|
    requires v.Data().Offset(Start(x.ns, i)) + skip >= v.DataStart() * SECTOR + 8
    ensures Reads(Image(v, x), v.Data().Offset(Start(x.ns, i)) + skip, x.blobs[i][skip..])
  {
    hide Reads;
    PatchesInBounds(v, x);
    var z, lo := Zeros(v.size), v.Data().Offset(Start(x.ns, i));
    RunReadBack(v.Data(), x.ns, x.blobs, z, i);
    ReadsPart(PutAll(z, DataPatches(v, x)), lo, x.blobs[i], skip, |x.blobs[i]|);
    assert x.blobs[i][skip..|x.blobs[i]|] == x.blobs[i][skip..];
    MetaClearLate(v, x, lo + skip, lo + |x.blobs[i]|);
    PutAllKeepsReads(PutAll(z, DataPatches(v, x)), MetaPatches(v, x), lo + skip, x.blobs[i][skip..]);
    PutAllConcat(z, DataPatches(v, x), MetaPatches(v, x));
  }

  lemma MetaClearLate(v: Vol, x: Body, lo: nat, hi: nat)
    requires BodyOk(v, x) && v.DataStart() * SECTOR + 8 <= lo
    ensures Clear(MetaPatches(v, x), lo, hi)
  {
    hide FatBytes, BootSector, InfoSector;
    VolBounds(v);
  }

  /** Once the clusters without entries are in use, the byte that clobbers the root directory is not zero. */
  lemma ClobberNotZero(v: Vol, x: Body)
    requires BodyOk(v, x) && !v.FatFits() && NextFree(x) > Limit(v)
    ensures x.fat[Limit(v)] % 256 != 0
  {
    VolBounds(v);
    var i := RunsPartition(x.ns, Limit(v));
    assert IsRun(x.fat, Start(x.ns, i), x.ns[i]);
  }

  // ---------------------------------------------------------------- directories on such a volume

  /** The same entries, but for what a label entry says other than being one. */
  predicate SameButLabel(es': seq<Entry>, es: seq<Entry>)
  {
    && |es'| == |es| > 0 && es'[1..] == es[1..]
    && (es' == es || es'[0][11] == es[0][11] == ATTR_VOLUME)
  }

  lemma SameAsItself(es: seq<Entry>)
    requires es != []
    ensures SameButLabel(es, es)
  {
  }

  lemma SameSteps(es': seq<Entry>, es: seq<Entry>, k: nat, prefix: Name)
    requires SameButLabel(es', es) && 1 <= k <= |es|
    ensures Steps(START, es'[..k], prefix) == Steps(START, es[..k], prefix)
  {
    hide KeyFor, LfnProblems;
    if es' != es {
      assert es'[..k][1..] == es'[1..][..k - 1] && es[..k][1..] == es[1..][..k - 1];
      assert Step(START, es'[..k][0], prefix) == START && Step(START, es[..k][0], prefix) == START;
    }
  }

  /** Bytes with a new start. */
  lemma NewStart(img: seq<byte>, off: nat, blob: seq<byte>)
    requires |blob| >= 32 && Reads(img, off + 8, blob[8..])
    ensures off + 32 <= |img| && img[off + 11] == blob[11]
    ensures Reads(img, off, img[off..off + 32] + blob[32..])
  {
    assert img[off + 11] == img[off + 8..off + 8 + |blob[8..]|][3];
    ReadsPart(img, off + 8, blob[8..], 24, |blob| - 8);
    assert blob[8..][24..|blob| - 8] == blob[32..];
    var both := img[off..off + 32] + blob[32..];
    assert img[off..off + |both|] == img[off..off + 32] + img[off + 32..off + 32 + |blob[32..]|];
  }

  lemma JoinSplit(es: seq<Entry>, pad: nat)
    requires es != []
    ensures (Join(es) + Zeros(pad))[32..] == Join(es[1..]) + Zeros(pad)
    ensures (Join(es) + Zeros(pad))[11] == es[0][11]
  {
    assert Join(es) + Zeros(pad) == es[0] + (Join(es[1..]) + Zeros(pad));
  }

  /** Putting another first entry in front. */
  lemma Headed(img: seq<byte>, off: nat, es: seq<Entry>, pad: nat) returns (es': seq<Entry>)
    requires es != [] && Live(es) && es[0][11] == ATTR_VOLUME && Reads(img, off + 8, (Join(es) + Zeros(pad))[8..])
    requires off < |img| && img[off] != 0
    ensures SameButLabel(es', es) && Live(es') && Reads(img, off, Join(es') + Zeros(pad))
  {
    hide Reads;
    var blob := Join(es) + Zeros(pad);
    NewStart(img, off, blob);
    JoinSplit(es, pad);
    var e: Entry := img[off..off + 32];
    es' := [e] + es[1..];
    JoinSplit(es', pad);
    assert es'[1..] == es[1..];
    assert Join(es') + Zeros(pad) == e + (Join(es') + Zeros(pad))[32..];
    assert forall k :: 1 <= k < |es'| ==> es'[k] == es[k];
  }

  /** The only run at cluster 2 is the root directory's. */
  lemma RootRun(p: Plan, v: Visit, i: nat)
    requires PlanOk(p) && i < |PlanCells(p)| && PlanCells(p)[i] == DirCell(v) && Start(PlanNeeds(p), i) == FIRST_CLUSTER
    ensures v == Visit(p.root, null)
  {
    RootAtTwo(p);
    if i > 0 {
      assert PlanNeeds(p)[0] >= 1;
      assert Start(PlanNeeds(p), 0) == FIRST_CLUSTER;
      StartsOrdered(PlanNeeds(p), 0, i);
    }
  }

  lemma RootLabel(v: Visit, t: Tag, root: Node, clu: ClusterMap)
    requires v.parent == null && DirOk(v.dir) && TagOk(t) && ClustersOk(clu)
    ensures FillAll(DirSlots(v, t), root, clu)[0][11] == ATTR_VOLUME
  {
    hide ChildSlots, Storable, AllStorable, WithCluster;
    assert DirSlots(v, t)[0] == HeadSlots(v, t)[0];
  }

  /** A run and the data in it, apart from the first eight bytes of the data area. */
  lemma RunOfVisit(p: Plan, v: Visit) returns (i: nat, s: nat, n: nat)
    requires PlanOk(p) && v in Walk(p.root, null)
    ensures DirOk(v.dir) && VolOk(p.vol) && ClustersOk(p.clu) && TagOk(p.vol.tag)
    ensures s == ClusterOf(p.clu, v.dir) >= FIRST_CLUSTER && n == Need(p.vol, DirCell(v)) && IsRun(p.fat, s, n)
    ensures s + n <= p.vol.clusters + 2
    ensures i < |PlanNeeds(p)| && s == Start(PlanNeeds(p), i)
    ensures PlanBody(p).ns == PlanNeeds(p) && PlanBody(p).fat == p.fat
    ensures i < |PlanBody(p).blobs| && PlanBody(p).ns[i] == n && BodyOk(p.vol, PlanBody(p))
    ensures PlanBody(p).blobs[i] == DirBlob(p.vol, v, p.root, p.clu)
    ensures s == FIRST_CLUSTER ==> v == Visit(p.root, null)
  {
    hide DirSlots;
    WalksOk(p.root);
    i := VisitIndex(p, v);
    s, n := Start(PlanNeeds(p), i), PlanNeeds(p)[i];
    ContentsAt(p.vol, PlanCells(p), p.root, p.clu, i);
    if s == FIRST_CLUSTER { RootRun(p, v, i); }
  }

  /** What the image holds of a directory whose volume is filled past its FAT. */
  lemma DirHeld(p: Plan, v: Visit) returns (s: nat, n: nat, es: seq<Entry>)
    requires PlanOk(p) && !p.vol.FatFits() && NextFree(PlanBody(p)) > Limit(p.vol) && v in Walk(p.root, null)
    ensures DirOk(v.dir) && VolOk(p.vol) && ClustersOk(p.clu) && TagOk(p.vol.tag)
    ensures s == ClusterOf(p.clu, v.dir) >= FIRST_CLUSTER && n == Need(p.vol, DirCell(v)) && IsRun(p.fat, s, n)
    ensures s + n <= p.vol.clusters + 2 && PlanBody(p).fat == p.fat
    ensures SameButLabel(es, FillAll(DirSlots(v, p.vol.tag), p.root, p.clu))
    ensures Live(es) && Holds(p.vol, PlanImage(p), s, n, es)
  {
    hide PlanOk, DirSlots, DirOk, VolOk, PlanBody, Image, PlanNeeds, BodyOk, NextFree, SlotsLive, Reads, Join, Live;
    hide FillAll, DirBlob, Need, IsRun;
    var i;
    i, s, n := RunOfVisit(p, v);
    var slots := DirSlots(v, p.vol.tag);
    var full := FillAll(slots, p.root, p.clu);
    DirSlotsLive(v, p.vol.tag);
    LiveFilled(slots, p.root, p.clu);
    BlobIs(p.vol, v, p.root, p.clu);
    BlobHeld(p.vol, PlanBody(p), i, n, full);
    if s > FIRST_CLUSTER {
      es := full;
      SameAsItself(full);
    } else {
      RootLabel(v, p.vol.tag, p.root, p.clu);
      FirstByte(p.vol, PlanBody(p));
      es := Headed(PlanImage(p), p.vol.Data().Offset(s), full, n * p.vol.Data().ClusterBytes() - 32 * |full|);
    }
  }

  lemma FirstByte(v: Vol, x: Body)
    requires BodyOk(v, x) && !v.FatFits() && NextFree(x) > Limit(v)
    ensures v.Data().Offset(FIRST_CLUSTER) < |Image(v, x)| && Image(v, x)[v.Data().Offset(FIRST_CLUSTER)] != 0
  {
    hide BodyOk, Image;
    DataClobbered(v, x);
    ClobberNotZero(v, x);
  }

  lemma BlobHeld(v: Vol, x: Body, i: nat, n: nat, full: seq<Entry>)
    requires BodyOk(v, x) && VolOk(v) && i < |x.ns| && i < |x.blobs| && x.ns[i] == n > 0 && full != []
    requires n * v.Data().ClusterBytes() >= 32 * |full|
    requires x.blobs[i] == Join(full) + Zeros(n * v.Data().ClusterBytes() - 32 * |full|)
    ensures var pad, off := n * v.Data().ClusterBytes() - 32 * |full|, v.Data().Offset(Start(x.ns, i));
            if Start(x.ns, i) > FIRST_CLUSTER then Reads(Image(v, x), off, Join(full) + Zeros(pad))
            else Reads(Image(v, x), off + 8, (Join(full) + Zeros(pad))[8..])
  {
    hide BodyOk, VolOk, Reads, Image, Join;
    VolSpc(v);
    BeyondFirst(v, Start(x.ns, i));
    if Start(x.ns, i) > FIRST_CLUSTER {
      BlobTailReads(v, x, i, 0);
      assert x.blobs[i][0..] == x.blobs[i];
    } else {
      BlobTailReads(v, x, i, 8);
    }
  }

  lemma VolSpc(v: Vol)
    requires VolOk(v)
    ensures v.spc >= 1
  {
  }

  lemma BlobIs(v: Vol, d: Visit, root: Node, clu: ClusterMap)
    requires DirOk(d.dir) && VolOk(v) && ClustersOk(clu) && TagOk(v.tag)
    ensures Need(v, DirCell(d)) >= 1
    ensures var n, full := Need(v, DirCell(d)), FillAll(DirSlots(d, v.tag), root, clu);
            && n * v.Data().ClusterBytes() >= 32 * |full| > 0
            && DirBlob(v, d, root, clu) == Join(full) + Zeros(n * v.Data().ClusterBytes() - 32 * |full|)
  {
    hide DirSlots, DirOk, Join, FillAll, VolOk;
  }

  lemma BeyondFirst(v: Vol, s: nat)
    requires v.spc >= 1 && s >= FIRST_CLUSTER
    ensures v.Data().Offset(s) >= v.DataStart() * SECTOR + if s > FIRST_CLUSTER then 8 else 0
  {
    OffsetStep(v.Data(), FIRST_CLUSTER, s - FIRST_CLUSTER);
    if s > FIRST_CLUSTER { MulMono(1, s - FIRST_CLUSTER, v.Data().ClusterBytes()); }
  }

  // ---------------------------------------------------------------- directories read whole, and the one cut short

  /** A run whose last cluster lies behind the first without an entry: the reader does not get that far. */
  predicate Cut(v: Vol, s: nat, n: nat) { s <= Limit(v) && s + n == Limit(v) + 2 }

  ghost predicate CutDir(p: Plan, v: Visit)
    requires PlanOk(p) && DirOk(v.dir)
  {
    Cut(p.vol, ClusterOf(p.clu, v.dir), Need(p.vol, DirCell(v)))
  }

  lemma LateOnes(v: Vol, x: Body)
    requires BodyOk(v, x)
    ensures |x.fat| == v.clusters + 2 <= Limit(v) + 2 && |x.fat| < 0x0FFF_FFF8 && v.spc >= 1
  {
    VolBounds(v);
  }

  /** A directory that is not cut is read whole. */
  lemma WholeRead(p: Plan, v: Visit, fuel: nat)
    requires PlanOk(p) && Enough(p, fuel) && v in Walk(p.root, null) && DirOk(v.dir) && Sound(ViewOf(p, fuel))
    requires !p.vol.FatFits() && NextFree(PlanBody(p)) > Limit(p.vol) && !CutDir(p, v)
    ensures Yields(ViewOf(p, fuel), v)
  {
    hide PlanOk, DirSlots, DirOk, VolOk, PlanBody, Image, PlanNeeds, BodyOk, NextFree, Live, Holds, Need, IsRun;
    hide RunInImage, DirStream, Steps, FillAll, Sound;
    var s, n, es := DirHeld(p, v);
    LateOnes(p.vol, PlanBody(p));
    RunLinks(p.vol, PlanBody(p), s, n, n);
    StreamOfRun(p.vol, PlanImage(p), s, n, es, fuel);
    var full := FillAll(DirSlots(v, p.vol.tag), p.root, p.clu);
    forall prefix ensures Steps(START, es, prefix) == Steps(START, full, prefix) {
      SameSteps(es, full, |es|, prefix);
      assert es[..|es|] == es && full[..|es|] == full;
    }
  }

  lemma HoldsPart(v: Vol, img: seq<byte>, s: nat, n: nat, es: seq<Entry>, k: nat)
    requires Holds(v, img, s, n, es) && n >= 1 && k == 16 * v.spc * (n - 1) <= |es|
    ensures Holds(v, img, s, n - 1, es[..k])
  {
    var cb := v.Data().ClusterBytes();
    assert cb == 32 * (16 * v.spc);
    assert (n - 1) * cb == 32 * k;
    FullCluster(es, k, n * cb - 32 * |es|);
    hide Join, Reads;
    ReadsPart(img, v.Data().Offset(s), Join(es) + Zeros(n * cb - 32 * |es|), 0, 32 * k);
  }

  /** Of a directory that is cut, only the clusters before the last are read. */
  lemma CutRead(p: Plan, v: Visit, fuel: nat) returns (es: seq<Entry>, k: nat)
    requires PlanOk(p) && Enough(p, fuel) && v in Walk(p.root, null) && DirOk(v.dir)
    requires !p.vol.FatFits() && NextFree(PlanBody(p)) > Limit(p.vol) && CutDir(p, v)
    ensures TagOk(p.vol.tag) && ClustersOk(p.clu)
    ensures SameButLabel(es, FillAll(DirSlots(v, p.vol.tag), p.root, p.clu)) && 16 <= k < |es|
    ensures DirStream(PlanImage(p), BpbOf(p.vol), ClusterOf(p.clu, v.dir), fuel) == Some(es[..k])
  {
    hide PlanOk, DirSlots, DirOk, VolOk, PlanBody, Image, PlanNeeds, BodyOk, NextFree, Live, Holds, Need, IsRun;
    hide RunInImage, DirStream, Steps, FillAll;
    var s, n;
    s, n, es := DirHeld(p, v);
    LateOnes(p.vol, PlanBody(p));
    k := LastCluster(p.vol, v, n, |es|);
    HoldsPart(p.vol, PlanImage(p), s, n, es, k);
    LiveParts(es, k);
    RunLinks(p.vol, PlanBody(p), s, n, n - 1);
    StreamOfRun(p.vol, PlanImage(p), s, n - 1, es[..k], fuel);
  }

  lemma LastCluster(v: Vol, d: Visit, n: nat, len: nat) returns (k: nat)
    requires DirOk(d.dir) && VolOk(v) && TagOk(v.tag) && n == Need(v, DirCell(d)) >= 2 && len == |DirSlots(d, v.tag)|
    ensures k == 16 * v.spc * (n - 1) && 16 <= k < len
  {
    hide DirOk, DirSlots, CeilDiv;
    VolSpc(v);
    assert n == CeilDiv(32 * len, v.spc * 512);
    k := LastFull(v.spc, n, len);
  }

  lemma LastFull(spc: nat, n: nat, len: nat) returns (k: nat)
    requires spc >= 1 && n == CeilDiv(32 * len, spc * 512) >= 2
    ensures k == 16 * spc * (n - 1) && 16 <= k < len
  {
    hide CeilDiv, Times;
    k := 16 * spc * (n - 1);
    TailBytes(n, spc * 512);
    Regroup(spc, n - 1);
  }

  lemma Regroup(a: nat, b: nat)
    requires a > 0 && b > 0
    ensures Times(a, b) >= 1 && b * (a * 512) == 512 * Times(a, b) && 16 * a * b == 16 * Times(a, b)
  {
    MulMono(1, a, b);
  }

  // ---------------------------------------------------------------- a directory that is cut fails

  /** No more names are seen than entries checked. */
  lemma {:induction false} SeenCount(s: State, es: seq<Entry>, prefix: Name)
    requires |s.seen| <= s.report.checked
    ensures var r := Steps(s, es, prefix); |r.seen| <= r.report.checked
    decreases |es|
  {
    hide KeyFor, LfnProblems;
    if es != [] { SeenCount(Step(s, es[0], prefix), es[1..], prefix); }
  }

  /** Entries that a directory ends with are counted. */
  predicate Counted(e: Entry) { e[11] != ATTR_LFN && !IsLabel(e) && !IsDotOrDeleted(e) }

  lemma {:induction false} CountGrows(s: State, es: seq<Entry>, prefix: Name)
    ensures var r := Steps(s, es, prefix);
            && r.report.checked >= s.report.checked
            && (es != [] && Counted(es[|es| - 1]) ==> r.report.checked > s.report.checked)
    decreases |es|
  {
    hide KeyFor, LfnProblems;
    if es != [] { CountGrows(Step(s, es[0], prefix), es[1..], prefix); }
  }

  lemma {:induction false} LastChild(nodes: seq<Node>, shorts: seq<Short>, root: Node, clu: ClusterMap)
    requires Match(nodes, shorts) && AllStorable(nodes) && ClustersOk(clu) && nodes != []
    ensures var es := FillAll(ChildSlots(nodes, shorts), root, clu); es != [] && Counted(es[|es| - 1])
    decreases |nodes|
  {
    hide Storable, Wellformed, NodeSlots, Fill, Counted, FillAll;
    var a, b := NodeSlots(nodes[0], shorts[0]), ChildSlots(nodes[1..], shorts[1..]);
    FillAllConcat(a, b, root, clu);
    if |nodes| == 1 {
      LastEntry(nodes[0], shorts[0], root, clu);
      assert a + b == a;
    } else {
      LastChild(nodes[1..], shorts[1..], root, clu);
    }
  }

  lemma LastEntry(n: Node, sh: Short, root: Node, clu: ClusterMap)
    requires Storable(n) && ClustersOk(clu) && Wellformed(sh)
    ensures var es := FillAll(NodeSlots(n, sh), root, clu); es != [] && Counted(es[|es| - 1])
  {
    NodeFilled(n, sh, root, clu);
    EntryIsShort(n, sh, clu);
  }

  /** The last entry of a directory with more than two belongs to a child and is counted. */
  lemma LastOfDir(v: Visit, t: Tag, root: Node, clu: ClusterMap)
    requires DirOk(v.dir) && TagOk(t) && ClustersOk(clu) && |DirSlots(v, t)| > 2
    ensures var es := FillAll(DirSlots(v, t), root, clu); Counted(es[|es| - 1])
  {
    hide Counted, Storable, Wellformed, ChildSlots, FillAll;
    var head, rest := HeadSlots(v, t), ChildSlots(v.dir.order, Shorts(v.dir));
    ShortsMatch(v.dir);
    FillAllConcat(head, rest, root, clu);
    assert v.dir.order != [] by { if v.dir.order == [] { NoChildSlots(v.dir.order, Shorts(v.dir)); } }
    LastChild(v.dir.order, Shorts(v.dir), root, clu);
  }

  lemma NoChildSlots(nodes: seq<Node>, shorts: seq<Short>)
    requires nodes == [] && shorts == []
    ensures ChildSlots(nodes, shorts) == []
  {
  }

  /** More nodes than names seen: one of the nodes is not seen (pigeonhole). */
  lemma {:induction false} SomeMissing(nodes: seq<Node>, keys: set<Name>) returns (i: nat)
    requires DistinctNames(nodes) && |nodes| > |keys|
    ensures i < |nodes| && nodes[i].name !in keys
    decreases |nodes|
  {
    i := |nodes| - 1;
    var last := nodes[i].name;
    if last in keys {
      i := SomeMissing(nodes[..i], keys - {last});
    }
  }

  /** Any proper beginning of a directory shows too few names. */
  lemma PartFails(w: View, v: Visit, es: seq<Entry>, k: nat, prefix: Name)
    requires Sound(w) && v in Walk(w.root, null) && DirOk(v.dir)
    requires SameButLabel(es, FillAll(DirSlots(v, w.tag), w.root, w.clu)) && 2 <= k < |es|
    requires DirStream(w.img, w.g, ClusterOf(w.clu, v.dir), w.fuel) == Some(es[..k])
    ensures TreeOk(v.dir) && !Passes(WalkOf(w, v.dir, prefix))
  {
    hide CheckNodes, Step, Steps, DirSlots, FillAll, DirStream, DirOk, Counted, SameButLabel;
    VisitOk(w.root, v);
    var s, i := PartMisses(v, w.tag, w.root, w.clu, es, k, prefix);
    ProblemsGrow(w.img, w.g, v.dir.order, v.dir.height, s.seen, s.report, prefix, w.fuel);
  }

  lemma PartMisses(v: Visit, t: Tag, root: Node, clu: ClusterMap, es: seq<Entry>, k: nat, prefix: Name)
      returns (s: State, i: nat)
    requires DirOk(v.dir) && DistinctNames(v.dir.order) && TagOk(t) && ClustersOk(clu)
    requires SameButLabel(es, FillAll(DirSlots(v, t), root, clu)) && 2 <= k < |es|
    ensures s == Steps(START, es[..k], prefix) && i < |v.dir.order| && v.dir.order[i].name !in s.seen
  {
    hide Step, Steps, DirSlots, FillAll, Counted, Storable, SeenAfter;
    var full := FillAll(DirSlots(v, t), root, clu);
    SameSteps(es, full, k, prefix);
    s := Steps(START, full[..k], prefix);
    StepsDir(v, t, root, clu, prefix);
    LastOfDir(v, t, root, clu);
    PartCounts(full, k, prefix);
    i := SomeMissing(v.dir.order, s.seen.Keys);
  }

  lemma PartCounts(full: seq<Entry>, k: nat, prefix: Name)
    requires k < |full| && Counted(full[|full| - 1])
    ensures var s := Steps(START, full[..k], prefix);
            |s.seen| <= s.report.checked < Steps(START, full, prefix).report.checked
  {
    hide Step, Steps, Counted;
    var s := Steps(START, full[..k], prefix);
    assert full == full[..k] + full[k..];
    StepsConcat(START, full[..k], full[k..], prefix);
    CountGrows(s, full[k..], prefix);
    SeenCount(START, full[..k], prefix);
  }

  // ---------------------------------------------------------------- and fails everything above it

  ghost predicate Fails(w: View, d: Node)
    requires TreeOk(d)
  {
    forall prefix :: !Passes(WalkOf(w, d, prefix))
  }

  lemma {:induction false} AddUpFails(nodes: seq<Node>, rs: seq<Option<Report>>, r: Report, j: nat)
    requires |nodes| == |rs| && j < |nodes| && nodes[j].isDir && !Passes(rs[j])
    ensures !Passes(AddUp(nodes, rs, r))
    decreases |nodes|
  {
    if nodes[0].isDir {
      if rs[0].Some? {
        var r1 := Report(r.checked + rs[0].value.checked, r.problems + rs[0].value.problems);
        if j == 0 { AddUpGrows(nodes[1..], rs[1..], r1); } else { AddUpFails(nodes[1..], rs[1..], r1, j - 1); }
      }
    } else {
      AddUpFails(nodes[1..], rs[1..], r, j - 1);
    }
  }

  lemma {:induction false} ChildAbove(nodes: seq<Node>, parent: Node, h: nat, u: Visit) returns (j: nat)
    requires ForestOk(nodes, h) && u in WalkAll(nodes, parent, h)
    ensures j < |nodes| && nodes[j].isDir && u in Walk(nodes[j], parent)
    decreases |nodes|
  {
    if nodes[0].isDir && u in Walk(nodes[0], parent) {
      j := 0;
    } else {
      j := ChildAbove(nodes[1..], parent, h, u);
      j := j + 1;
    }
  }

  /** A directory with one below it that fails does not pass either. */
  lemma {:induction false} FailsUp(w: View, v: Visit, u: Visit)
    requires Sound(w) && v in Walk(w.root, null) && TreeOk(v.dir) && u in Walk(v.dir, v.parent)
    requires TreeOk(u.dir) && Fails(w, u.dir)
    requires forall x :: x in Walk(w.root, null) ==> TreeOk(x.dir) && (Yields(w, x) || Fails(w, x.dir))
    ensures Fails(w, v.dir)
    decreases v.dir.height
  {
    hide CheckNodes, Yields, Lossy;
    if v != u && Yields(w, v) {
      var j := ChildAbove(v.dir.order, v.dir, v.dir.height, u);
      ChildVisited(w.root, v, j);
      FailsUp(w, Visit(v.dir.order[j], v.dir), u);
      forall prefix ensures !Passes(WalkOf(w, v.dir, prefix)) {
        ChildFails(w, v, j, prefix);
      }
    }
  }

  lemma ChildFails(w: View, v: Visit, j: nat, prefix: Name)
    requires Sound(w) && v in Walk(w.root, null) && TreeOk(v.dir) && Yields(w, v)
    requires j < |v.dir.order| && v.dir.order[j].isDir && Fails(w, v.dir.order[j])
    ensures !Passes(WalkOf(w, v.dir, prefix))
  {
    hide CheckNodes, Yields, Lossy, AddUp;
    if LongNamed(v.dir) {
      WalkAddsUp(w, v, prefix);
      AddUpFails(v.dir.order, Inner(w, v.dir.order, v.dir.height, prefix), Report(|v.dir.order|, []), j);
    } else {
      PlainFails(w, v, prefix);
    }
  }

  // ---------------------------------------------------------------- the verdict on every volume

  /** Some directory of the tree is cut. */
  ghost predicate HasCut(p: Plan)
    requires PlanOk(p)
  {
    exists v :: v in Walk(p.root, null) && DirOk(v.dir) && CutDir(p, v)
  }

  lemma CutFails(p: Plan, v: Visit, fuel: nat)
    requires PlanOk(p) && Enough(p, fuel) && v in Walk(p.root, null) && DirOk(v.dir)
    requires !p.vol.FatFits() && NextFree(PlanBody(p)) > Limit(p.vol) && CutDir(p, v)
    ensures TreeOk(v.dir) && Fails(ViewOf(p, fuel), v.dir)
  {
    hide PlanOk, DirSlots, FillAll, DirStream, PlanBody, Image, NextFree, DirOk, CutDir, CheckNodes;
    ViewSound(p, fuel);
    var w := ViewOf(p, fuel);
    VisitOk(w.root, v);
    var es, k := CutRead(p, v, fuel);
    forall prefix ensures !Passes(WalkOf(w, v.dir, prefix)) {
      PartFails(w, v, es, k, prefix);
    }
  }

  lemma FullVerdict(p: Plan, fuel: nat)
    requires PlanOk(p) && Enough(p, fuel) && !p.vol.FatFits() && NextFree(PlanBody(p)) > Limit(p.vol)
    ensures var r := WalkOf(ViewOf(p, fuel), p.root, []);
            && (Passes(r) <==> AllLossy(p.root.order, p.root.height) && !HasCut(p))
            && (Passes(r) ==> r.value.checked == NodeCount(p.root) - 1)
  {
    hide PlanBody, Image, NextFree, CutDir, CheckNodes, Yields;
    var w, top := ViewOf(p, fuel), Visit(p.root, null);
    ViewSound(p, fuel);
    RootAtTwo(p);
    forall v | v in Walk(p.root, null) ensures TreeOk(v.dir) && DirOk(v.dir)
    ensures if CutDir(p, v) then Fails(w, v.dir) else Yields(w, v)
    {
      VisitOk(p.root, v);
      if CutDir(p, v) { CutFails(p, v, fuel); } else { WholeRead(p, v, fuel); }
    }
    if HasCut(p) {
      var u :| u in Walk(p.root, null) && DirOk(u.dir) && CutDir(p, u);
      FailsUp(w, top, u);
    } else {
      DirVerdict(w, top, []);
    }
  }

  /**
   * The strict reader accepts the image written from a tree exactly when every name below the root took the
   * long-name path and either the FAT has an entry for every cluster, or the root is empty, or the volume is
   * filled past its FAT and no directory lies across the end of it.
   */
  lemma VerifyPassesExactly(p: Plan, fuel: nat)
    requires PlanOk(p) && Enough(p, fuel)
    ensures Passes(Verify(PlanImage(p), p.root, fuel)) <==>
              && AllLossy(p.root.order, p.root.height)
              && (Exceptional(p.vol.Total(), p.vol.spc) ==>
                    if NextFree(PlanBody(p)) <= Limit(p.vol) then p.root.order == [] else !HasCut(p))
    ensures Passes(Verify(PlanImage(p), p.root, fuel)) ==>
              Verify(PlanImage(p), p.root, fuel).value.checked == NodeCount(p.root) - 1
  {
    hide PlanBody, Image, NextFree, HasCut, Verify;
    FatFitsExactly(p.vol);
    VerifyIsWalk(p, fuel);
    if p.vol.FatFits() {
      FitsVerdict(p, fuel);
    } else if NextFree(PlanBody(p)) <= Limit(p.vol) {
      ShortFatVerdict(p, fuel);
    } else {
      FullVerdict(p, fuel);
    }
  }

  // ---------------------------------------------------------------- files on every volume

  /** The chain of a run in the image has the bytes of its clusters and no more. */
  lemma {:induction false} RunLength(v: Vol, img: seq<byte>, s: nat, n: nat, fuel: nat)
    requires v.spc >= 1 && s >= FIRST_CLUSTER && n >= 1 && s + n < 0x0FFF_FFF8 && fuel >= n
    requires v.Data().Offset(s) + n * v.Data().ClusterBytes() <= |img| && RunInImage(v, img, s, n)
    ensures var r := ChainBytes(img, BpbOf(v), s, fuel); r.Some? && |r.value| == n * v.Data().ClusterBytes()
    decreases n
  {
    hide FatEntry, ClusterBlob;
    var cb, off := v.Data().ClusterBytes(), v.Data().Offset(s);
    TailBytes(n, cb);
    ClusterReads(v, img, s, img[off..off + cb]);
    OffsetStep(v.Data(), s, 1);
    RunRest(v, img, s, n);
    if n == 1 {
      assert ChainBytes(img, BpbOf(v), FatEntry(img, BpbOf(v), s).value, fuel - 1) == Some([]);
    } else {
      RunLength(v, img, s + 1, n - 1, fuel - 1);
    }
  }

  /** The run of a non-empty file, which is never the one at cluster 2. */
  lemma FileRun(p: Plan, v: Visit, f: Node) returns (i: nat, s: nat, n: nat)
    requires PlanOk(p) && v in Walk(p.root, null) && f in v.dir.order && !f.isDir && f.data != []
    ensures Storable(f) && VolOk(p.vol) && PlanBody(p).fat == p.fat && BodyOk(p.vol, PlanBody(p))
    ensures s == ClusterOf(p.clu, f) && n == Need(p.vol, FileCell(f)) > 0 && IsRun(p.fat, s, n)
    ensures FIRST_CLUSTER < s && s + n <= p.vol.clusters + 2
    ensures i < |PlanBody(p).ns| && i < |PlanBody(p).blobs| && s == Start(PlanBody(p).ns, i) && n == PlanBody(p).ns[i]
    ensures PlanBody(p).blobs[i] == f.data
  {
    hide DirSlots;
    i := FileIndex(p, v, f);
    s, n := Start(PlanNeeds(p), i), PlanNeeds(p)[i];
    ContentsAt(p.vol, PlanCells(p), p.root, p.clu, i);
    NotFirst(p, i);
  }

  lemma NotFirst(p: Plan, i: nat)
    requires PlanOk(p) && i < |PlanCells(p)| && PlanCells(p)[i].FileCell?
    ensures Start(PlanNeeds(p), i) > FIRST_CLUSTER
  {
    hide DirSlots, Laid;
    RootAtTwo(p);
    assert PlanNeeds(p)[0] >= 1;
    assert Start(PlanNeeds(p), 0) == FIRST_CLUSTER;
    StartsOrdered(PlanNeeds(p), 0, i);
  }

  /** Where the image holds a non-empty file, on any volume. */
  lemma FileHeld(p: Plan, v: Visit, f: Node) returns (s: nat, n: nat)
    requires PlanOk(p) && v in Walk(p.root, null) && f in v.dir.order && !f.isDir && f.data != []
    ensures Storable(f) && VolOk(p.vol) && PlanBody(p).fat == p.fat
    ensures s == ClusterOf(p.clu, f) >= FIRST_CLUSTER && n == Need(p.vol, FileCell(f)) > 0 && IsRun(p.fat, s, n)
    ensures s + n <= p.vol.clusters + 2 && Reads(PlanImage(p), p.vol.Data().Offset(s), f.data)
  {
    hide PlanOk, PlanBody, Image, Reads, BodyOk, IsRun, Need, VolOk, Storable;
    var i;
    i, s, n := FileRun(p, v, f);
    VolSpc(p.vol);
    BeyondFirst(p.vol, s);
    BlobTailReads(p.vol, PlanBody(p), i, 0);
    assert f.data[0..] == f.data;
  }

  /**
   * On every volume, following a stored file's chain yields its bytes, then the rest of the last cluster; but for
   * the one file, if any, that lies across the end of the FAT.
   */
  lemma FilesReadBack(p: Plan, v: Visit, f: Node, fuel: nat)
    requires PlanOk(p) && v in Walk(p.root, null) && f in v.dir.order && !f.isDir && Enough(p, fuel)
    ensures Storable(f)
    ensures var r := ChainBytes(PlanImage(p), BpbOf(p.vol), ClusterOf(p.clu, f), fuel);
            r.Some? && (f.data <= r.value <==> !Cut(p.vol, ClusterOf(p.clu, f), Need(p.vol, FileCell(f))))
  {
    hide PlanOk, PlanBody, Image, BodyOk, IsRun, RunInImage, Reads, VolOk, FatEntry, ClusterBlob, Need;
    if f.data == [] {
      EmptyFile(p, v, f);
    } else {
      var s, n := FileHeld(p, v, f);
      var img, cb := PlanImage(p), p.vol.Data().ClusterBytes();
      LateOnes(p.vol, PlanBody(p));
      RunInside(p.vol, s, n);
      FileFills(p.vol, f);
      if Cut(p.vol, s, n) {
        TailBytes(n, cb);
        RunLinks(p.vol, PlanBody(p), s, n, n - 1);
        RunLength(p.vol, img, s, n - 1, fuel);
      } else {
        RunLinks(p.vol, PlanBody(p), s, n, n);
        BytesOfRun(p.vol, img, s, n, f.data, fuel);
      }
    }
  }

  lemma EmptyFile(p: Plan, v: Visit, f: Node)
    requires PlanOk(p) && v in Walk(p.root, null) && f in v.dir.order && !f.isDir && f.data == []
    ensures Storable(f) && ClusterOf(p.clu, f) == 0 && Need(p.vol, FileCell(f)) == 0
  {
    hide DirSlots;
    var i := FileIndex(p, v, f);
  }

  /** A file needs its last cluster. */
  lemma FileFills(v: Vol, f: Node)
    requires VolOk(v) && Storable(f) && f.data != []
    ensures var n, cb := Need(v, FileCell(f)), v.Data().ClusterBytes(); (n - 1) * cb < |f.data| <= n * cb
  {
    hide CeilDiv;
    TailBytes(Need(v, FileCell(f)), v.Data().ClusterBytes());
  }
}
