/** The FAT32 writer: allocation, first clusters, cluster fields, and the sequence of seeks and writes. */
module Writer {
  import opened Bytes
  import opened Geometry
  import opened ShortNames
  import opened LongNames
  import opened Tree
  import opened Directory
  import opened Allocator
  import opened Runs
  import opened Volume
  import opened Layout
  import opened Wrappers

  /**
   * A volume of the given size, or nothing when it is too small; `forced` is a cluster size in bytes, 0 standing
   * for none. A forced size of less than a sector is an error.
   */
  method NewVolume(size: nat, forced: nat, maxClusters: nat, tag: Tag) returns (v: Option<Vol>)
    ensures v.None? <==>
              if forced == 0 then forall s :: s in CLUSTER_SIZES ==> !Acceptable(size / SECTOR, s, 0)
              else forced < SECTOR || forall m: nat :: m >= 1 ==> !Fits(size / SECTOR, forced / SECTOR, m)
    ensures v.Some? ==>
              && v.value.size == size && v.value.tag == tag && v.value.spc > 0
              && FatSectors(size / SECTOR, v.value.spc) == Some(v.value.fatSectors)
              && Clusters(size / SECTOR, v.value.spc) == Some(v.value.clusters)
              && (forced != 0 ==> v.value.spc == forced / SECTOR)
              && (forced == 0 ==> v.value.spc in CLUSTER_SIZES && v.value.clusters >= FAT32_MIN_CLUSTERS)
    ensures (v.Some? && TagOk(tag) && size / SECTOR < 0x1_0000_0000
             && v.value.spc <= 255 && v.value.clusters + 2 < 0x0FFF_FFF8) ==> VolOk(v.value)
  {
    hide Fits;
    var total := size / SECTOR;
    var spc: Option<nat>;
    if forced != 0 {
      spc := Some(forced / SECTOR);
    } else {
      spc := PickClusterSize(total, maxClusters);
    }
    if spc.None? || spc.value == 0 { return None; }
    FatSectorsIsLargest(total, spc.value);
    var fs := FindFatSectors(total, spc.value);
    var c := Clusters(total, spc.value);
    if fs.None? || c.None? { return None; }
    return Some(Vol(size, spc.value, fs.value, c.value, tag));
  }

  // ---------------------------------------------------------------- one cell after another

  /** What the layout needs of a volume. */
  predicate VolSane(v: Vol) { v.spc >= 1 && TagOk(v.tag) }

  /** The FAT and the next free cluster after the cells `done`. */
  ghost predicate FatAfter(v: Vol, fat: seq<nat>, nextFree: nat, done: seq<Cell>)
  {
    && VolSane(v) && CellsOk(done)
    && |fat| == v.clusters + 2 && Laid(fat, Needs(v, done))
    && nextFree == FIRST_CLUSTER + Sum(Needs(v, done))
  }

  function Owners(cells: seq<Cell>): (ns: seq<Node>)
    ensures |ns| == |cells| && forall i :: 0 <= i < |ns| ==> ns[i] == cells[i].Owner()
  {
    seq(|cells|, i requires 0 <= i < |cells| => cells[i].Owner())
  }

  ghost predicate HasClusters(nodes: seq<Node>, cs: seq<nat>)
    reads nodes
  {
    |nodes| == |cs| && forall i :: 0 <= i < |nodes| ==> nodes[i].cluster == cs[i]
  }

  function PlacedAll(ns: seq<nat>): (cs: seq<nat>)
    ensures |cs| == |ns| && forall i :: 0 <= i < |cs| ==> cs[i] == Placed(ns, i)
  {
    seq(|ns|, i requires 0 <= i < |ns| => Placed(ns, i))
  }

  /** The first clusters recorded in the nodes after the cells `done`. */
  ghost predicate NodesAfter(v: Vol, done: seq<Cell>)
    requires VolSane(v) && CellsOk(done)
    reads Owners(done)
  {
    HasClusters(Owners(done), PlacedAll(Needs(v, done)))
  }

  lemma PlacedPrefix(ns: seq<nat>, n: nat, i: nat)
    requires i < |ns|
    ensures Placed(ns + [n], i) == Placed(ns, i)
  {
    assert (ns + [n])[..i] == ns[..i];
  }

  lemma PlacedLast(ns: seq<nat>, n: nat)
    ensures Placed(ns + [n], |ns|) == if n == 0 then 0 else FIRST_CLUSTER + Sum(ns)
    ensures Sum(ns + [n]) == Sum(ns) + n
  {
    assert (ns + [n])[..|ns|] == ns;
  }

  /** One more cell: its run is linked behind the others, or it needs none. */
  lemma FatAfterOneMore(v: Vol, fat: seq<nat>, fat': seq<nat>, nextFree: nat, done: seq<Cell>, c: Cell)
    requires FatAfter(v, fat, nextFree, done) && CellOk(c) && Grown(fat, fat', nextFree, Need(v, c))
    ensures FatAfter(v, fat', nextFree + Need(v, c), done + [c])
  {
    hide Laid, Grown, Sum, Need, Needs, CellOk, CellsOk;
    NeedsAppend(v, done, c);
    PlacedLast(Needs(v, done), Need(v, c));
    LaidMore(fat, fat', Needs(v, done), Need(v, c));
  }

  lemma NodesAfterOneMore(v: Vol, done: seq<Cell>, c: Cell)
    requires VolSane(v) && CellsOk(done) && CellOk(c) && NodesAfter(v, done)
    requires c.Owner().cluster == if Need(v, c) == 0 then 0 else FIRST_CLUSTER + Sum(Needs(v, done))
    ensures CellsOk(done + [c]) && NodesAfter(v, done + [c])
  {
    var ns, n := Needs(v, done), Need(v, c);
    NeedsAppend(v, done, c);
    PlacedAllAppend(ns, n);
    HasClustersAppend(Owners(done), PlacedAll(ns), c.Owner(), if n == 0 then 0 else FIRST_CLUSTER + Sum(ns));
    assert Owners(done + [c]) == Owners(done) + [c.Owner()];
  }

  lemma PlacedAllAppend(ns: seq<nat>, n: nat)
    ensures PlacedAll(ns + [n]) == PlacedAll(ns) + [if n == 0 then 0 else FIRST_CLUSTER + Sum(ns)]
  {
    PlacedLast(ns, n);
    forall i | 0 <= i < |ns| ensures PlacedAll(ns + [n])[i] == PlacedAll(ns)[i] {
      PlacedPrefix(ns, n, i);
    }
  }

  lemma HasClustersAppend(nodes: seq<Node>, cs: seq<nat>, n: Node, c: nat)
    requires HasClusters(nodes, cs) && n.cluster == c
    ensures HasClusters(nodes + [n], cs + [c])
  {
  }

  function OwnerSet(cells: seq<Cell>): set<Node>
  {
    set c | c in cells :: c.Owner()
  }

  lemma OwnerIn(cells: seq<Cell>, c: Cell)
    requires c in cells
    ensures c.Owner() in OwnerSet(cells)
  {
  }

  lemma {:induction false} SumGrows(ns: seq<nat>, k: nat)
    requires k <= |ns|
    ensures Sum(ns[..k]) <= Sum(ns)
    decreases |ns|
  {
    if k < |ns| {
      var ms := ns[..|ns| - 1];
      assert ms[..k] == ns[..k];
      SumGrows(ms, k);
    } else {
      assert ns[..k] == ns;
    }
  }

  /** If a prefix of the cells does not fit the volume, neither do all of them. */
  lemma PrefixNeeds(v: Vol, cells: seq<Cell>, k: nat)
    requires VolSane(v) && CellsOk(cells) && k <= |cells|
    ensures CellsOk(cells[..k]) && Needs(v, cells[..k]) == Needs(v, cells)[..k]
    ensures Sum(Needs(v, cells[..k])) <= Sum(Needs(v, cells))
  {
    assert Needs(v, cells[..k]) == Needs(v, cells)[..k];
    SumGrows(Needs(v, cells), k);
  }

  /** The next cell of a duplicate-free list has a new owner. */
  lemma NextOwnerIsNew(cells: seq<Cell>, k: nat)
    requires DistinctOwners(cells) && k < |cells|
    ensures cells[k].Owner() !in Owners(cells[..k])
  {
  }

  // ---------------------------------------------------------------- the plan a layout amounts to

  /** Every marker in the entries of a visited directory names a node that has a cell. */
  ghost predicate MarkersIn(ss: seq<Slot>, owners: set<Node>)
  {
    forall i :: 0 <= i < |ss| ==> match ss[i].marker
                                  case NoNode => true
                                  case SelfOf(n) => n in owners
                                  case ParentOf(n) => n in owners
                                  case ChildOf(n) => n in owners
  }

  lemma {:induction false} ChildMarkers(nodes: seq<Node>, shorts: seq<Short>, owners: set<Node>)
    requires |nodes| == |shorts| && AllStorable(nodes) && forall i :: 0 <= i < |nodes| ==> nodes[i] in owners
    ensures MarkersIn(ChildSlots(nodes, shorts), owners)
    decreases |nodes|
  {
    if nodes != [] {
      ChildMarkers(nodes[1..], shorts[1..], owners);
    }
  }

  lemma CellOwned(vs: seq<Visit>, v: Visit, n: Node)
    requires (forall w :: w in vs ==> DirOk(w.dir)) && v in vs && (n == v.dir || (n in v.dir.order && !n.isDir))
    ensures n in OwnerSet(Cells(vs))
  {
    CellsOfVisits(vs, v, n);
    OwnerIn(Cells(vs), if n == v.dir then DirCell(v) else FileCell(n));
  }

  lemma ChildOwned(root: Node, v: Visit, i: nat)
    requires TreeOk(root) && root.isDir && v in Walk(root, null) && i < |v.dir.order|
    ensures v.dir.order[i] in OwnerSet(Cells(Walk(root, null)))
  {
    WalksOk(root);
    WalkClosed(root, null, v);
    var n := v.dir.order[i];
    CellOwned(Walk(root, null), if n.isDir then Visit(n, v.dir) else v, n);
  }

  lemma ParentOwned(root: Node, v: Visit)
    requires TreeOk(root) && root.isDir && v in Walk(root, null)
    ensures v.dir in OwnerSet(Cells(Walk(root, null)))
    ensures v.parent != null ==> v.parent in OwnerSet(Cells(Walk(root, null)))
  {
    WalksOk(root);
    WalkClosed(root, null, v);
    CellOwned(Walk(root, null), v, v.dir);
    if v.parent != null {
      var w :| w in Walk(root, null) && v.parent == w.dir;
      CellOwned(Walk(root, null), w, w.dir);
    }
  }

  lemma VisitMarkers(root: Node, v: Visit, t: Tag)
    requires TreeOk(root) && root.isDir && v in Walk(root, null) && TagOk(t)
    ensures DirOk(v.dir) && MarkersIn(DirSlots(v, t), OwnerSet(Cells(Walk(root, null))))
  {
    hide TreeOk, MarkersIn, ChildSlots, HeadSlots;
    var owners := OwnerSet(Cells(Walk(root, null)));
    WalksOk(root);
    ParentOwned(root, v);
    forall i | 0 <= i < |v.dir.order| ensures v.dir.order[i] in owners {
      ChildOwned(root, v, i);
    }
    ChildMarkers(v.dir.order, Shorts(v.dir), owners);
    HeadMarkers(v, t, owners);
    MarkersConcat(HeadSlots(v, t), ChildSlots(v.dir.order, Shorts(v.dir)), owners);
  }

  lemma HeadMarkers(v: Visit, t: Tag, owners: set<Node>)
    requires DirOk(v.dir) && TagOk(t) && v.dir in owners && (v.parent != null ==> v.parent in owners)
    ensures MarkersIn(HeadSlots(v, t), owners)
  {
  }

  lemma MarkersConcat(a: seq<Slot>, b: seq<Slot>, owners: set<Node>)
    requires MarkersIn(a, owners) && MarkersIn(b, owners)
    ensures MarkersIn(a + b, owners)
  {
  }

  ghost predicate AllMarkersIn(entries: seq<seq<Slot>>, owners: set<Node>)
  {
    forall k :: 0 <= k < |entries| ==> MarkersIn(entries[k], owners)
  }

  lemma MarkersAt(entries: seq<seq<Slot>>, owners: set<Node>, k: nat)
    requires AllMarkersIn(entries, owners) && k < |entries|
    ensures MarkersIn(entries[k], owners)
  {
    hide MarkersIn;
  }

  lemma {:induction false} DirCellVisited(vs: seq<Visit>, v: Visit)
    requires DirCell(v) in Cells(vs)
    ensures v in vs
    decreases |vs|
  {
    var k := |vs| - 1;
    if DirCell(v) in Cells(vs[..k]) {
      DirCellVisited(vs[..k], v);
    } else {
      FileCellsAreFiles(vs[k].dir.order);
    }
  }

  lemma {:induction false} FileCellsAreFiles(nodes: seq<Node>)
    ensures forall c :: c in FileCells(nodes) ==> c.FileCell?
    decreases |nodes|
  {
    if nodes != [] { FileCellsAreFiles(nodes[..|nodes| - 1]); }
  }

  lemma LaidValues(fat: seq<nat>, ns: seq<nat>)
    requires Laid(fat, ns) && |fat| < 0x0FFF_FFF8
    ensures FatValues(fat)
  {
    forall c | 0 <= c < |fat| ensures fat[c] < 0x1_0000_0000 {
      if FIRST_CLUSTER <= c < FIRST_CLUSTER + Sum(ns) {
        var i := RunsPartition(ns, c);
        assert IsRun(fat, Start(ns, i), ns[i]);
      }
    }
  }

  /** The first clusters now recorded in the nodes. */
  ghost function Recorded(owners: set<Node>): ClusterMap
    reads owners
  {
    map n | n in owners :: n.cluster
  }

  /** What the layout of a whole tree has established. */
  lemma PlanIsOk(v: Vol, root: Node, fat: seq<nat>, nextFree: nat)
    requires TreeOk(root) && root.isDir && VolOk(v)
    requires var cells := Cells(Walk(root, null));
             DistinctOwners(cells) && FatAfter(v, fat, nextFree, cells) && NodesAfter(v, cells)
    ensures PlanOk(Plan(v, root, Recorded(OwnerSet(Cells(Walk(root, null)))), fat))
  {
    var cells := Cells(Walk(root, null));
    var owners, ns := OwnerSet(cells), Needs(v, cells);
    LaidValues(fat, ns);
    forall i | 0 <= i < |cells|
      ensures cells[i].Owner() in owners
      ensures cells[i].Owner().cluster == Placed(ns, i) <= v.clusters + 2
    {
      OwnerIn(cells, cells[i]);
      assert cells[i].Owner() == Owners(cells)[i];
      SumGrows(ns, i);
    }
    forall n | n in owners ensures n.cluster < 0x1_0000_0000 {
      var c :| c in cells && c.Owner() == n;
      var i :| 0 <= i < |cells| && cells[i] == c;
    }
  }

  /** The image after the first k runs have been written. */
  function ImageUpto(v: Vol, x: Body, k: nat): (img: seq<byte>)
    requires BodyOk(v, x) && k <= |x.ns|
    ensures |img| == v.size
  {
    UptoInBounds(v, x, k);
    PutAll(Zeros(v.size), RunPatches(v.Data(), x.ns[..k], x.blobs[..k]))
  }

  lemma UptoInBounds(v: Vol, x: Body, k: nat)
    requires BodyOk(v, x) && k <= |x.ns|
    ensures InBounds(v.size, RunPatches(v.Data(), x.ns[..k], x.blobs[..k]))
  {
    hide VolOk, FatValues, Sum, RunPatches;
    RunPatchesWithin(v.Data(), x.ns[..k], x.blobs[..k]);
    SumGrows(x.ns, k);
    VolBounds(v);
    OffsetMono(v.Data(), FIRST_CLUSTER + Sum(x.ns[..k]), v.clusters + 2);
  }

  lemma RunPatchesNext(a: Area, ns: seq<nat>, blobs: seq<seq<byte>>, k: nat)
    requires |ns| == |blobs| && k < |ns|
    ensures RunPatches(a, ns[..k + 1], blobs[..k + 1])
         == RunPatches(a, ns[..k], blobs[..k]) + (if ns[k] == 0 then [] else [Patch(a.Offset(Start(ns, k)), blobs[k])])
  {
    var ms, bs := ns[..k + 1], blobs[..k + 1];
    assert ms[..k] == ns[..k] && bs[..k] == blobs[..k] && ms[k] == ns[k] && bs[k] == blobs[k];
  }

  lemma UptoSame(v: Vol, x: Body, k: nat)
    requires BodyOk(v, x) && k < |x.ns| && x.ns[k] == 0
    ensures ImageUpto(v, x, k + 1) == ImageUpto(v, x, k)
  {
    RunPatchesNext(v.Data(), x.ns, x.blobs, k);
    UptoInBounds(v, x, k);
    var ps := RunPatches(v.Data(), x.ns[..k], x.blobs[..k]);
    assert RunPatches(v.Data(), x.ns[..k + 1], x.blobs[..k + 1]) == ps + [] == ps;
  }

  lemma UptoNext(v: Vol, x: Body, k: nat)
    requires BodyOk(v, x) && k < |x.ns| && x.ns[k] > 0
    ensures v.Data().Offset(Start(x.ns, k)) + |x.blobs[k]| <= v.size
    ensures ImageUpto(v, x, k + 1) == Put(ImageUpto(v, x, k), Patch(v.Data().Offset(Start(x.ns, k)), x.blobs[k]))
  {
    RunPatchesNext(v.Data(), x.ns, x.blobs, k);
    UptoInBounds(v, x, k);
    UptoInBounds(v, x, k + 1);
    var ps, q := RunPatches(v.Data(), x.ns[..k], x.blobs[..k]), Patch(v.Data().Offset(Start(x.ns, k)), x.blobs[k]);
    assert (ps + [q])[|ps|] == q;
    PutAllSnoc(Zeros(v.size), ps, q);
  }

  lemma UptoEnds(v: Vol, x: Body)
    requires BodyOk(v, x)
    ensures InBounds(v.size, DataPatches(v, x))
    ensures ImageUpto(v, x, 0) == Zeros(v.size)
    ensures ImageUpto(v, x, |x.ns|) == PutAll(Zeros(v.size), DataPatches(v, x))
  {
    PatchesInBounds(v, x);
    assert x.ns[..|x.ns|] == x.ns && x.blobs[..|x.ns|] == x.blobs;
  }

  // ---------------------------------------------------------------- the script of file writes

  /** The image after each step of a script of writes; a step without a write changes nothing. */
  predicate Stages(stages: seq<seq<byte>>, script: seq<Option<Patch>>)
  {
    |stages| == |script| + 1 && forall k :: 0 <= k < |script| ==> StepOk(stages[k], stages[k + 1], script[k])
  }

  predicate StepOk(before: seq<byte>, after: seq<byte>, q: Option<Patch>)
  {
    if q.None? then after == before else q.value.End() <= |before| && after == Put(before, q.value)
  }

  /** The write a cell asks for: at its first cluster, with its own bytes; none for an empty file. */
  predicate Asks(a: Area, c: Cell, clu: ClusterMap, q: Option<Patch>)
  {
    && c.Owner() in clu
    && (q.None? <==> c.FileCell? && c.file.data == [])
    && (q.Some? ==> clu[c.Owner()] >= FIRST_CLUSTER && q.value.off == a.Offset(clu[c.Owner()]))
    && (q.Some? && c.FileCell? ==> q.value.data == c.file.data)
  }

  predicate AllAsk(a: Area, cells: seq<Cell>, clu: ClusterMap, script: seq<Option<Patch>>)
  {
    |script| == |cells| && forall k :: 0 <= k < |cells| ==> Asks(a, cells[k], clu, script[k])
  }

  /** The nodes still record the first clusters of `clu`. */
  ghost predicate Agree(clu: ClusterMap)
    reads clu.Keys
  {
    forall n :: n in clu ==> n.cluster == clu[n]
  }

  function ScriptOf(a: Area, ns: seq<nat>, blobs: seq<seq<byte>>): (s: seq<Option<Patch>>)
    requires |ns| == |blobs|
    ensures |s| == |ns|
    ensures forall k :: 0 <= k < |s| ==>
              s[k] == if ns[k] == 0 then None else Some(Patch(a.Offset(Start(ns, k)), blobs[k]))
  {
    seq(|ns|, k requires 0 <= k < |ns| => if ns[k] == 0 then None else Some(Patch(a.Offset(Start(ns, k)), blobs[k])))
  }

  function StagesOf(v: Vol, x: Body): (ss: seq<seq<byte>>)
    requires BodyOk(v, x)
    ensures |ss| == |x.ns| + 1 && forall k :: 0 <= k <= |x.ns| ==> ss[k] == ImageUpto(v, x, k)
  {
    seq(|x.ns| + 1, k requires 0 <= k <= |x.ns| => ImageUpto(v, x, k))
  }

  lemma StageStep(v: Vol, x: Body, k: nat)
    requires BodyOk(v, x) && k < |x.ns|
    ensures StepOk(ImageUpto(v, x, k), ImageUpto(v, x, k + 1), ScriptOf(v.Data(), x.ns, x.blobs)[k])
  {
    if x.ns[k] == 0 { UptoSame(v, x, k); } else { UptoNext(v, x, k); }
  }

  lemma StagesOk(v: Vol, x: Body)
    requires BodyOk(v, x)
    ensures Stages(StagesOf(v, x), ScriptOf(v.Data(), x.ns, x.blobs))
  {
    var script, stages := ScriptOf(v.Data(), x.ns, x.blobs), StagesOf(v, x);
    forall k | 0 <= k < |script| ensures StepOk(stages[k], stages[k + 1], script[k]) {
      StageStep(v, x, k);
    }
  }

  lemma PlanAsks(p: Plan)
    requires PlanOk(p) && p.clu == Recorded(OwnerSet(PlanCells(p)))
    ensures AllAsk(p.vol.Data(), PlanCells(p), p.clu, ScriptOf(p.vol.Data(), PlanBody(p).ns, PlanBody(p).blobs))
    ensures Agree(p.clu)
  {
    var cells, x := PlanCells(p), PlanBody(p);
    forall k | 0 <= k < |cells|
      ensures Asks(p.vol.Data(), cells[k], p.clu, ScriptOf(p.vol.Data(), x.ns, x.blobs)[k])
    {
      OwnerIn(cells, cells[k]);
      assert PlanNeeds(p)[k] == Need(p.vol, cells[k]);
      ContentsAt(p.vol, cells, p.root, p.clu, k);
    }
  }

  lemma ScriptAndStages(v: Vol, x: Body) returns (script: seq<Option<Patch>>, stages: seq<seq<byte>>)
    requires BodyOk(v, x)
    ensures script == ScriptOf(v.Data(), x.ns, x.blobs) && Stages(stages, script)
    ensures stages[0] == Zeros(v.size) && stages[|script|] == ImageUpto(v, x, |x.ns|)
    ensures forall k :: 0 <= k < |script| && script[k].Some? ==> script[k].value.data == x.blobs[k]
  {
    script, stages := ScriptOf(v.Data(), x.ns, x.blobs), StagesOf(v, x);
    StagesOk(v, x);
    UptoEnds(v, x);
  }

  /** The script of a plan: its stages lead from an empty file to the image with all data written. */
  lemma PlanScript(p: Plan) returns (script: seq<Option<Patch>>, stages: seq<seq<byte>>)
    requires PlanOk(p) && p.clu == Recorded(OwnerSet(PlanCells(p)))
    ensures Stages(stages, script) && stages[0] == Zeros(p.vol.size)
    ensures AllAsk(p.vol.Data(), PlanCells(p), p.clu, script) && Agree(p.clu)
    ensures forall k :: 0 <= k < |script| && script[k].Some? ==> script[k].value.data == PlanBody(p).blobs[k]
    ensures stages[|script|] == ImageUpto(p.vol, PlanBody(p), |PlanBody(p).ns|)
  {
    PlanAsks(p);
    script, stages := ScriptAndStages(p.vol, PlanBody(p));
  }

  /** The entries of each directory among the cells, cluster fields still blank; none for a file. */
  function SlotsOf(cells: seq<Cell>, t: Tag): (ss: seq<seq<Slot>>)
    requires CellsOk(cells) && TagOk(t)
    ensures |ss| == |cells|
  {
    if cells == [] then []
    else
      var c := cells[|cells| - 1];
      SlotsOf(cells[..|cells| - 1], t) + [if c.DirCell? then DirSlots(c.visit, t) else []]
  }

  lemma {:induction false} SlotsOfAt(cells: seq<Cell>, t: Tag, i: nat)
    requires CellsOk(cells) && TagOk(t) && i < |cells|
    ensures SlotsOf(cells, t)[i] == if cells[i].DirCell? then DirSlots(cells[i].visit, t) else []
    decreases |cells|
  {
    if i < |cells| - 1 { SlotsOfAt(cells[..|cells| - 1], t, i); }
  }

  lemma EntriesMarked(root: Node, t: Tag)
    requires TreeOk(root) && root.isDir && TagOk(t) && CellsOk(Cells(Walk(root, null)))
    ensures var cells := Cells(Walk(root, null)); AllMarkersIn(SlotsOf(cells, t), OwnerSet(cells))
  {
    var cells := Cells(Walk(root, null));
    forall k | 0 <= k < |cells| ensures MarkersIn(SlotsOf(cells, t)[k], OwnerSet(cells)) {
      SlotsOfAt(cells, t, k);
      if cells[k].DirCell? {
        DirCellVisited(Walk(root, null), cells[k].visit);
        VisitMarkers(root, cells[k].visit, t);
      }
    }
  }

  /** The bytes of each cell, from entries made beforehand. */
  function BlobsFrom(cb: nat, cells: seq<Cell>, entries: seq<seq<Slot>>, root: Node, clu: ClusterMap)
    : (bs: seq<seq<byte>>)
    requires cb > 0 && |entries| == |cells| && ClustersOk(clu)
    ensures |bs| == |cells|
    decreases |cells|
  {
    if cells == [] then []
    else
      var k := |cells| - 1;
      BlobsFrom(cb, cells[..k], entries[..k], root, clu)
      + [if cells[k].DirCell? then BlobFrom(cb, entries[k], root, clu) else cells[k].file.data]
  }

  lemma {:induction false} BlobsAreContents(v: Vol, cells: seq<Cell>, root: Node, clu: ClusterMap)
    requires VolSane(v) && CellsOk(cells) && ClustersOk(clu)
    ensures BlobsFrom(v.Data().ClusterBytes(), cells, SlotsOf(cells, v.tag), root, clu)
         == AllContents(v, cells, root, clu)
    decreases |cells|
  {
    if cells != [] {
      var k := |cells| - 1;
      assert SlotsOf(cells, v.tag)[..k] == SlotsOf(cells[..k], v.tag);
      BlobsAreContents(v, cells[..k], root, clu);
    }
  }

  lemma WalkCellsOk(root: Node)
    requires TreeOk(root) && root.isDir
    ensures CellsOk(Cells(Walk(root, null)))
  {
    WalksOk(root);
    CellsOfVisits(Walk(root, null), Visit(root, null), root);
  }

  lemma StartsBehind(v: Vol, fat: seq<nat>, nextFree: nat, done: seq<Cell>)
    requires FatAfter(v, fat, nextFree, done)
    ensures VolSane(v) && CellsOk(done) && |fat| == v.clusters + 2 && nextFree == FIRST_CLUSTER + Sum(Needs(v, done))
  {
  }

  class Fat32 {
    const vol: Vol
    var fat: seq<nat>
    var nextFree: nat

    ghost predicate Valid()
      reads this
    {
      && VolSane(vol)
      && |fat| == vol.clusters + 2 && IsFresh(fat)
      && FIRST_CLUSTER <= nextFree <= |fat|
      && forall c :: nextFree <= c < |fat| ==> fat[c] == 0
    }

    /** The state after the cells `done` have been placed. */
    ghost predicate After(done: seq<Cell>)
      reads this, Owners(done)
    {
      Valid() && CellsOk(done) && FatAfter(vol, fat, nextFree, done) && NodesAfter(vol, done)
    }

    constructor (v: Vol)
      requires VolOk(v)
      ensures vol == v && After([])
    {
      vol := v;
      fat := seq(v.clusters + 2, _ => 0);
      nextFree := FIRST_CLUSTER;
      new;
      fat := fat[0 := 0x0FFF_FFF8];
      fat := fat[1 := END_OF_CHAIN];
    }

    /** A chain of n clusters, or nothing when the volume is too small for it. */
    method Alloc(n: nat) returns (first: Option<nat>)
      requires Valid()
      modifies this
      ensures Valid()
      ensures first.None? <==> old(nextFree) + n > vol.clusters + 2
      ensures first.None? ==> fat == old(fat) && nextFree == old(nextFree)
      ensures first.Some? ==>
                && first.value == old(nextFree) && nextFree == old(nextFree) + n
                && (n > 0 ==> IsRun(fat, first.value, n))
                && (forall c :: 0 <= c < old(nextFree) ==> fat[c] == old(fat[c]))
    {
      if nextFree + n > vol.clusters + 2 {
        return None;
      }
      var start := nextFree;
      for i := 0 to n
        invariant |fat| == vol.clusters + 2 && nextFree == start == old(nextFree)
        invariant forall c :: 0 <= c < start ==> fat[c] == old(fat[c])
        invariant forall c :: start <= c < start + i ==> fat[c] == if c == start + n - 1 then END_OF_CHAIN else c + 1
        invariant forall c :: start + i <= c < |fat| ==> fat[c] == 0
      {
        var c := start + i;
        fat := fat[c := if i == n - 1 then END_OF_CHAIN else c + 1];
      }
      nextFree := nextFree + n;
      return Some(start);
    }

    /** Give one directory or file its clusters; an empty file gets none and first cluster 0. */
    method Give(c: Cell) returns (ok: bool)
      requires Valid() && CellOk(c)
      modifies this, c.Owner()`cluster
      ensures Valid() && (ok <==> old(nextFree) + Need(vol, c) <= vol.clusters + 2)
      ensures ok ==> c.Owner().cluster == if Need(vol, c) == 0 then 0 else old(nextFree)
      ensures ok ==> nextFree == old(nextFree) + Need(vol, c) && Grown(old(fat), fat, old(nextFree), Need(vol, c))
    {
      hide IsRun, CellOk;
      if c.FileCell? && |c.file.data| == 0 {
        c.file.cluster := 0;
        return true;
      }
      var first := Alloc(Need(vol, c));
      if first.None? { return false; }
      c.Owner().cluster := first.value;
      return true;
    }

    /** The cell behind those already placed. */
    method PlaceCell(c: Cell, ghost done: seq<Cell>) returns (ok: bool)
      requires After(done) && CellOk(c) && c.Owner() !in Owners(done)
      modifies this, c.Owner()`cluster
      ensures ok ==> After(done + [c])
      ensures ok <==> old(nextFree) + Need(vol, c) <= vol.clusters + 2
    {
      hide FatAfter, NodesAfter, Owners, Grown, Valid, Need, CellOk, CellsOk, Needs, PlacedAll, Sum, VolSane, TagOk;
      ghost var before, start := fat, nextFree;
      StartsBehind(vol, fat, nextFree, done);
      ok := Give(c);
      if ok {
        FatAfterOneMore(vol, before, fat, start, done, c);
        assert NodesAfter(vol, done);
        NodesAfterOneMore(vol, done, c);
      }
    }

    /** Phase 2: clusters for one cell after another; false when the volume is too small. */
    method LayOut(cells: seq<Cell>) returns (ok: bool)
      requires After([]) && CellsOk(cells) && DistinctOwners(cells)
      modifies this, OwnerSet(cells)`cluster
      ensures ok ==> After(cells)
      ensures ok <==> FIRST_CLUSTER + Sum(Needs(vol, cells)) <= vol.clusters + 2
    {
      ghost var done: seq<Cell> := [];
      var k := 0;
      while k < |cells|
        invariant 0 <= k <= |cells| && done == cells[..k]
        invariant After(done)
      {
        NextOwnerIsNew(cells, k);
        OwnerIn(cells, cells[k]);
        PrefixNeeds(vol, cells, k + 1);
        NeedsAppend(vol, done, cells[k]);
        PlacedLast(Needs(vol, done), Need(vol, cells[k]));
        assert cells[..k + 1] == done + [cells[k]];
        ok := PlaceCell(cells[k], done);
        if !ok { return false; }
        done := done + [cells[k]];
        k := k + 1;
      }
      assert done == cells;
      return true;
    }

    /** Phase 3 for one directory: pack the first clusters, now known, into its entries. */
    method FillEntries(ss: seq<Slot>, root: Node, ghost owners: set<Node>) returns (es: seq<Entry>)
      requires MarkersIn(ss, owners) && ClustersOk(Recorded(owners))
      ensures es == FillAll(ss, root, Recorded(owners))
    {
      es := [];
      ghost var clu := Recorded(owners);
      for i := 0 to |ss|
        invariant |es| == i && forall k :: 0 <= k < i ==> es[k] == Fill(ss[k], root, clu)
      {
        var s := ss[i];
        if s.marker.NoNode? {
          es := es + [s.entry];
        } else {
          var c := match s.marker
            case SelfOf(d) => d.cluster
            case ParentOf(p) => if p == root then 0 else p.cluster
            case ChildOf(n) => n.cluster;
          assert c == MarkerCluster(s.marker, root, clu);
          es := es + [WithCluster(s.entry, c)];
        }
      }
      assert es == FillAll(ss, root, clu);
    }

    /** Phase 4 for one cell: seek to its first cluster and write, unless it has none. */
    method PutCell(img: seq<byte>, c: Cell, blob: seq<byte>, ghost q: Option<Patch>) returns (img': seq<byte>)
      requires q.None? <==> c.FileCell? && c.file.data == []
      requires q.Some? ==>
                 && c.Owner().cluster >= FIRST_CLUSTER && q.value == Patch(vol.Data().Offset(c.Owner().cluster), blob)
                 && q.value.End() <= |img|
      ensures img' == if q.None? then img else Put(img, q.value)
    {
      if c.FileCell? && |c.file.data| == 0 { return img; }
      img' := Put(img, Patch(vol.Data().Offset(c.Owner().cluster), blob));
    }

    /** Phase 4: one seek and one write per directory and per non-empty file, in order. */
    method PutData(cells: seq<Cell>, blobs: seq<seq<byte>>, ghost stages: seq<seq<byte>>,
                   ghost script: seq<Option<Patch>>, ghost clu: ClusterMap) returns (img: seq<byte>)
      requires Stages(stages, script) && stages[0] == Zeros(vol.size) && |blobs| == |cells|
      requires AllAsk(vol.Data(), cells, clu, script) && Agree(clu)
      requires forall k :: 0 <= k < |script| && script[k].Some? ==> script[k].value.data == blobs[k]
      ensures img == stages[|script|]
    {
      img := Zeros(vol.size);
      var k := 0;
      while k < |cells|
        invariant 0 <= k <= |cells| && img == stages[k]
        invariant Agree(clu)
      {
        assert Asks(vol.Data(), cells[k], clu, script[k]);
        assert cells[k].Owner().cluster == clu[cells[k].Owner()];
        assert StepOk(stages[k], stages[k + 1], script[k]);
        img := PutCell(img, cells[k], blobs[k], script[k]);
        k := k + 1;
      }
    }

    /** The boot sector, FSInfo and FAT copies, written last. */
    method PutMeta(img: seq<byte>, ghost x: Body) returns (img': seq<byte>)
      requires BodyOk(vol, x) && x.fat == fat && nextFree == NextFree(x)
      requires img == ImageUpto(vol, x, |x.ns|)
      ensures img' == Image(vol, x)
    {
      hide BootSector, InfoSector, FatBytes, DataPatches, ImageUpto;
      UptoEnds(vol, x);
      PatchesInBounds(vol, x);
      ghost var meta := MetaPatches(vol, x);
      var boot, info, table := BootSector(vol), InfoSector(vol, nextFree), FatBytes(vol, fat);
      var ps := [Patch(0, boot), Patch(SECTOR, info), Patch(6 * SECTOR, boot), Patch(7 * SECTOR, info)];
      ps := ps + [Patch(RESERVED * SECTOR, table), Patch((RESERVED + vol.fatSectors) * SECTOR, table)];
      assert ps == meta;
      img' := img;
      for i := 0 to |ps|
        invariant |img'| == vol.size && InBounds(vol.size, ps[..i]) && img' == PutAll(img, ps[..i])
      {
        assert ps[..i + 1] == ps[..i] + [ps[i]];
        PutAllSnoc(img, ps[..i], ps[i]);
        img' := Put(img', ps[i]);
      }
      assert ps[..|ps|] == ps;
      PutAllConcat(Zeros(vol.size), DataPatches(vol, x), meta);
    }

    /**
     * Lay a tree out and write the image; nothing when the volume has too few clusters for it. The first
     * clusters end up in the nodes, the links in `fat`, and the image is the one they determine.
     */
    method Write(root: Node) returns (img: Option<seq<byte>>, ghost p: Plan)
      requires VolOk(vol) && After([]) && TreeOk(root) && root.isDir && DistinctOwners(Cells(Walk(root, null)))
      modifies this, OwnerSet(Cells(Walk(root, null)))`cluster
      ensures var cells := Cells(Walk(root, null));
              CellsOk(cells)
              && (img.Some? <==> FIRST_CLUSTER + Sum(Needs(vol, cells)) <= vol.clusters + 2)
      ensures img.Some? ==>
                && PlanOk(p) && p == Plan(vol, root, Recorded(OwnerSet(Cells(Walk(root, null)))), fat)
                && nextFree == NextFree(PlanBody(p)) && img.value == PlanImage(p)
    {
      var cells := Cells(Walk(root, null));
      WalkCellsOk(root);
      p := Plan(vol, root, map[], fat);
      var entries := AllEntries(cells);                          // 1. the entries of every directory
      var ok := LayOut(cells);                                   // 2. clusters
      if !ok { return None, p; }
      PlanIsOk(vol, root, fat, nextFree);
      p := Plan(vol, root, Recorded(OwnerSet(cells)), fat);
      var all := Finish(root, cells, entries, p);                // 3. and 4. cluster fields, the file
      img := Some(all);
    }

    method AllEntries(cells: seq<Cell>) returns (entries: seq<seq<Slot>>)
      requires TagOk(vol.tag) && CellsOk(cells)
      ensures entries == SlotsOf(cells, vol.tag)
    {
      hide DirSlots;
      entries := [];
      var k := 0;
      while k < |cells|
        invariant 0 <= k <= |cells| && entries == SlotsOf(cells[..k], vol.tag)
      {
        var slots := [];
        if cells[k].DirCell? {
          slots := DirEntries(cells[k].visit, vol.tag);
        }
        entries := entries + [slots];
        assert cells[..k + 1][..k] == cells[..k];
        k := k + 1;
      }
      assert cells[..|cells|] == cells;
    }

    /** Phase 3: the bytes of every cell, a directory's with its first-cluster fields filled in. */
    method AllBlobs(cells: seq<Cell>, entries: seq<seq<Slot>>, root: Node, ghost owners: set<Node>)
        returns (blobs: seq<seq<byte>>)
      requires vol.spc >= 1 && |entries| == |cells| && ClustersOk(Recorded(owners)) && AllMarkersIn(entries, owners)
      ensures blobs == BlobsFrom(vol.Data().ClusterBytes(), cells, entries, root, Recorded(owners))
    {
      hide AllMarkersIn, MarkersIn, FillAll, Join, Recorded;
      var cb := vol.Data().ClusterBytes();
      blobs := [];
      var k := 0;
      while k < |cells|
        invariant 0 <= k <= |cells|
        invariant blobs == BlobsFrom(cb, cells[..k], entries[..k], root, Recorded(owners))
      {
        var blob: seq<byte>;
        if cells[k].DirCell? {
          MarkersAt(entries, owners, k);
          var es := FillEntries(entries[k], root, owners);
          blob := Join(es);
          blob := blob + Zeros(CeilDiv(|blob|, cb) * cb - |blob|);
        } else {
          blob := cells[k].file.data;
        }
        blobs := blobs + [blob];
        assert cells[..k + 1][..k] == cells[..k] && entries[..k + 1][..k] == entries[..k];
        k := k + 1;
      }
      assert cells[..|cells|] == cells && entries[..|cells|] == entries;
    }

    method Finish(root: Node, cells: seq<Cell>, entries: seq<seq<Slot>>, ghost p: Plan) returns (img: seq<byte>)
      requires PlanOk(p) && p.vol == vol && p.root == root && p.fat == fat && nextFree == NextFree(PlanBody(p))
      requires cells == PlanCells(p) && entries == SlotsOf(cells, vol.tag)
      requires p.clu == Recorded(OwnerSet(cells))
      ensures img == PlanImage(p)
    {
      hide TreeOk, CellsOk, DistinctOwners, Laid, BodyOk, PlanBody, Image, AllContents, BlobsFrom, SlotsOf;
      hide AllMarkersIn;
      EntriesMarked(p.root, vol.tag);
      var blobs := AllBlobs(cells, entries, root, OwnerSet(cells));
      BlobsAreContents(vol, cells, p.root, p.clu);
      img := PutAllOf(cells, blobs, p);
    }

    method PutAllOf(cells: seq<Cell>, blobs: seq<seq<byte>>, ghost p: Plan) returns (img: seq<byte>)
      requires PlanOk(p) && p.vol == vol && p.fat == fat && nextFree == NextFree(PlanBody(p))
      requires cells == PlanCells(p) && blobs == AllContents(vol, cells, p.root, p.clu)
      requires p.clu == Recorded(OwnerSet(cells))
      ensures img == PlanImage(p)
    {
      ghost var x := PlanBody(p);
      ghost var script, stages := PlanScript(p);
      img := PutData(cells, blobs, stages, script, p.clu);
      img := PutMeta(img, x);
    }
  }
}
