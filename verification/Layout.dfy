/** Which node's bytes go into which run of clusters, and the image that results for a tree. */
module Layout {
  import opened Bytes
  import opened Geometry
  import opened ShortNames
  import opened LongNames
  import opened Tree
  import opened Directory
  import opened Allocator
  import opened Runs
  import opened Volume

  // ---------------------------------------------------------------- cells: what gets clusters, in order

  datatype Cell = DirCell(visit: Visit) | FileCell(file: Node)
  {
    function Owner(): Node { if DirCell? then visit.dir else file }
  }

  predicate CellOk(c: Cell) { if c.DirCell? then DirOk(c.visit.dir) else Storable(c.file) }

  predicate CellsOk(cells: seq<Cell>) { forall i :: 0 <= i < |cells| ==> CellOk(cells[i]) }

  function FileCells(nodes: seq<Node>): (cs: seq<Cell>)
  {
    if nodes == [] then []
    else
      var n := nodes[|nodes| - 1];
      FileCells(nodes[..|nodes| - 1]) + (if n.isDir then [] else [FileCell(n)])
  }

  function VisitCells(v: Visit): seq<Cell> { [DirCell(v)] + FileCells(v.dir.order) }

  /** Each directory followed by the files directly in it. */
  function Cells(vs: seq<Visit>): seq<Cell>
  {
    if vs == [] then [] else Cells(vs[..|vs| - 1]) + VisitCells(vs[|vs| - 1])
  }

  function SlotBytes(v: Vol, d: Visit): nat
    requires DirOk(d.dir) && TagOk(v.tag)
  {
    32 * |DirSlots(d, v.tag)|
  }

  function CellBytes(v: Vol, c: Cell): nat
    requires CellOk(c) && TagOk(v.tag)
  {
    match c
    case DirCell(d) => SlotBytes(v, d)
    case FileCell(f) => |f.data|
  }

  /** Clusters a cell takes: at least one for a directory, none for an empty file. */
  function Need(v: Vol, c: Cell): (n: nat)
    requires CellOk(c) && TagOk(v.tag) && v.spc >= 1
    ensures c.DirCell? ==> n >= 1
    ensures CellBytes(v, c) <= n * v.Data().ClusterBytes()
    ensures c.FileCell? ==> (n == 0 <==> c.file.data == [])
  {
    CeilDiv(CellBytes(v, c), v.Data().ClusterBytes())
  }

  function Needs(v: Vol, cells: seq<Cell>): (ns: seq<nat>)
    requires CellsOk(cells) && TagOk(v.tag) && v.spc >= 1
    ensures |ns| == |cells| && forall i :: 0 <= i < |ns| ==> ns[i] == Need(v, cells[i])
  {
    seq(|cells|, i requires 0 <= i < |cells| => Need(v, cells[i]))
  }

  lemma NeedsAppend(v: Vol, cells: seq<Cell>, c: Cell)
    requires CellsOk(cells) && CellOk(c) && TagOk(v.tag) && v.spc >= 1
    ensures CellsOk(cells + [c])
    ensures Needs(v, cells + [c]) == Needs(v, cells) + [Need(v, c)]
  {
  }

  // ---------------------------------------------------------------- contents

  function Join(es: seq<Entry>): (b: seq<byte>)
    ensures |b| == 32 * |es|
  {
    if es == [] then [] else es[0] + Join(es[1..])
  }

  lemma {:induction false} JoinAt(es: seq<Entry>, k: nat)
    requires k < |es|
    ensures Join(es)[32 * k..32 * k + 32] == es[k]
  {
    if k > 0 {
      JoinAt(es[1..], k - 1);
      assert Join(es)[32 * k..32 * k + 32] == Join(es[1..])[32 * (k - 1)..32 * (k - 1) + 32];
    }
  }

  /** Entries with their first clusters filled in, as bytes, padded with zeros to whole clusters. */
  function BlobFrom(cb: nat, slots: seq<Slot>, root: Node, clu: ClusterMap): (b: seq<byte>)
    requires cb > 0 && ClustersOk(clu)
    ensures |b| == CeilDiv(32 * |slots|, cb) * cb
  {
    var blob := Join(FillAll(slots, root, clu));
    blob + Zeros(CeilDiv(32 * |slots|, cb) * cb - |blob|)
  }

  function DirBlob(v: Vol, d: Visit, root: Node, clu: ClusterMap): (b: seq<byte>)
    requires CellOk(DirCell(d)) && TagOk(v.tag) && v.spc >= 1 && ClustersOk(clu)
    ensures |b| == Need(v, DirCell(d)) * v.Data().ClusterBytes()
  {
    BlobFrom(v.Data().ClusterBytes(), DirSlots(d, v.tag), root, clu)
  }

  function Contents(v: Vol, c: Cell, root: Node, clu: ClusterMap): (b: seq<byte>)
    requires CellOk(c) && TagOk(v.tag) && v.spc >= 1 && ClustersOk(clu)
    ensures |b| <= Need(v, c) * v.Data().ClusterBytes()
  {
    match c
    case DirCell(d) => DirBlob(v, d, root, clu)
    case FileCell(f) => f.data
  }

  /** The bytes of each cell. */
  function AllContents(v: Vol, cells: seq<Cell>, root: Node, clu: ClusterMap): (bs: seq<seq<byte>>)
    requires CellsOk(cells) && TagOk(v.tag) && v.spc >= 1 && ClustersOk(clu)
    ensures |bs| == |cells|
  {
    if cells == [] then []
    else AllContents(v, cells[..|cells| - 1], root, clu) + [Contents(v, cells[|cells| - 1], root, clu)]
  }

  lemma {:induction false} ContentsAt(v: Vol, cells: seq<Cell>, root: Node, clu: ClusterMap, i: nat)
    requires CellsOk(cells) && TagOk(v.tag) && v.spc >= 1 && ClustersOk(clu) && i < |cells|
    ensures AllContents(v, cells, root, clu)[i] == Contents(v, cells[i], root, clu)
    decreases |cells|
  {
    if i < |cells| - 1 { ContentsAt(v, cells[..|cells| - 1], root, clu, i); }
  }

  lemma ContentsFit(v: Vol, cells: seq<Cell>, root: Node, clu: ClusterMap)
    requires CellsOk(cells) && TagOk(v.tag) && v.spc >= 1 && ClustersOk(clu)
    ensures BlobsFit(v.Data(), Needs(v, cells), AllContents(v, cells, root, clu))
  {
    forall i | 0 <= i < |cells|
      ensures |AllContents(v, cells, root, clu)[i]| <= Needs(v, cells)[i] * v.Data().ClusterBytes()
    {
      ContentsAt(v, cells, root, clu, i);
    }
  }

  // ---------------------------------------------------------------- the plan of an image

  /** Everything an image depends on: volume, tree, first clusters and FAT. */
  datatype Plan = Plan(vol: Vol, root: Node, clu: ClusterMap, fat: seq<nat>)

  ghost function PlanCells(p: Plan): seq<Cell>
    requires TreeOk(p.root)
  {
    Cells(Walk(p.root, null))
  }

  ghost function PlanNeeds(p: Plan): (ns: seq<nat>)
    requires VolOk(p.vol) && TreeOk(p.root) && CellsOk(PlanCells(p))
    ensures |ns| == |PlanCells(p)|
  {
    Needs(p.vol, PlanCells(p))
  }

  /** No node gets clusters twice. */
  ghost predicate DistinctOwners(cells: seq<Cell>)
  {
    forall i, j :: 0 <= i < j < |cells| ==> cells[i].Owner() != cells[j].Owner()
  }

  /** The clusters and the FAT are those of a successful layout of the tree on the volume. */
  ghost predicate PlanOk(p: Plan)
  {
    && VolOk(p.vol) && TreeOk(p.root) && p.root.isDir && ClustersOk(p.clu)
    && CellsOk(PlanCells(p)) && DistinctOwners(PlanCells(p))
    && |p.fat| == p.vol.clusters + 2 && FatValues(p.fat) && Laid(p.fat, PlanNeeds(p))
    && forall i :: 0 <= i < |PlanCells(p)| ==> ClusterOf(p.clu, PlanCells(p)[i].Owner()) == Placed(PlanNeeds(p), i)
  }

  ghost function PlanBody(p: Plan): (x: Body)
    requires PlanOk(p)
    ensures BodyOk(p.vol, x)
  {
    ContentsFit(p.vol, PlanCells(p), p.root, p.clu);
    Body(PlanNeeds(p), AllContents(p.vol, PlanCells(p), p.root, p.clu), p.fat)
  }

  /** The finished image of a plan. */
  ghost function PlanImage(p: Plan): (img: seq<byte>)
    requires PlanOk(p)
    ensures |img| == p.vol.size
  {
    Image(p.vol, PlanBody(p))
  }

  // ---------------------------------------------------------------- finding a node's cell

  lemma {:induction false} FileCellsOk(nodes: seq<Node>, f: Node)
    requires AllStorable(nodes)
    ensures CellsOk(FileCells(nodes))
    ensures f in nodes && !f.isDir ==> FileCell(f) in FileCells(nodes)
    ensures forall c :: c in FileCells(nodes) ==> c.FileCell? && c.file in nodes
    decreases |nodes|
  {
    if nodes != [] {
      var k := |nodes| - 1;
      FileCellsOk(nodes[..k], f);
      assert f in nodes ==> f == nodes[k] || f in nodes[..k];
    }
  }

  lemma {:induction false} CellsOfVisits(vs: seq<Visit>, v: Visit, f: Node)
    requires forall w :: w in vs ==> DirOk(w.dir)
    ensures CellsOk(Cells(vs))
    ensures v in vs ==> DirCell(v) in Cells(vs)
    ensures v in vs && f in v.dir.order && !f.isDir ==> FileCell(f) in Cells(vs)
    decreases |vs|
  {
    if vs != [] {
      var k := |vs| - 1;
      CellsOfVisits(vs[..k], v, f);
      CellsOfOne(vs[k], f);
      hide DirOk, VisitCells;
      assert v in vs ==> v == vs[k] || v in vs[..k];
      var a, b := Cells(vs[..k]), VisitCells(vs[k]);
      assert Cells(vs) == a + b;
    }
  }

  lemma CellsOfOne(v: Visit, f: Node)
    requires DirOk(v.dir)
    ensures CellsOk(VisitCells(v)) && DirCell(v) in VisitCells(v)
    ensures f in v.dir.order && !f.isDir ==> FileCell(f) in VisitCells(v)
  {
    FileCellsOk(v.dir.order, f);
    assert VisitCells(v)[0] == DirCell(v);
  }

  lemma TreeDirOk(d: Node)
    requires TreeOk(d)
    ensures DirOk(d)
  {
  }

  /** Every directory the walk visits is a well-formed tree, and its subdirectories are visited too. */
  lemma {:induction false} WalkClosed(d: Node, parent: Node?, v: Visit)
    requires TreeOk(d) && d.isDir && v in Walk(d, parent)
    ensures TreeOk(v.dir) && v.dir.isDir
    ensures forall i :: 0 <= i < |v.dir.order| && v.dir.order[i].isDir ==>
              Visit(v.dir.order[i], v.dir) in Walk(d, parent)
    ensures v == Visit(d, parent) || exists w :: w in Walk(d, parent) && v.parent == w.dir
    decreases d.height, |d.order| + 1
  {
    var inner := WalkAll(d.order, d, d.height);
    assert Walk(d, parent) == [Visit(d, parent)] + inner;
    if v == Visit(d, parent) {
      forall i | 0 <= i < |d.order| && d.order[i].isDir ensures Visit(d.order[i], d) in Walk(d, parent) {
        WalkHasChildren(d.order, d, d.height, i);
        assert Walk(d.order[i], d)[0] == Visit(d.order[i], d);
      }
    } else {
      assert v in inner;
      WalkAllClosed(d.order, d, d.height, v);
      if v.parent == d { assert Walk(d, parent)[0].dir == d; }
    }
  }

  lemma {:induction false} WalkAllClosed(nodes: seq<Node>, parent: Node, h: nat, v: Visit)
    requires ForestOk(nodes, h) && v in WalkAll(nodes, parent, h)
    ensures TreeOk(v.dir) && v.dir.isDir
    ensures forall i :: 0 <= i < |v.dir.order| && v.dir.order[i].isDir ==>
              Visit(v.dir.order[i], v.dir) in WalkAll(nodes, parent, h)
    ensures v.parent == parent || exists w :: w in WalkAll(nodes, parent, h) && v.parent == w.dir
    decreases h, |nodes|
  {
    var first := if nodes[0].isDir then Walk(nodes[0], parent) else [];
    var rest := WalkAll(nodes[1..], parent, h);
    assert WalkAll(nodes, parent, h) == first + rest;
    if v in first {
      WalkClosed(nodes[0], parent, v);
    } else {
      WalkAllClosed(nodes[1..], parent, h, v);
    }
  }

  /** The run a visited directory or one of its files was given. */
  lemma VisitIndex(p: Plan, v: Visit) returns (i: nat)
    requires PlanOk(p) && v in Walk(p.root, null)
    ensures i < |PlanCells(p)| && PlanCells(p)[i] == DirCell(v)
    ensures PlanNeeds(p)[i] == Need(p.vol, DirCell(v)) >= 1
    ensures ClusterOf(p.clu, v.dir) == Start(PlanNeeds(p), i)
  {
    WalksOk(p.root);
    CellsOfVisits(Walk(p.root, null), v, v.dir);
    i :| 0 <= i < |PlanCells(p)| && PlanCells(p)[i] == DirCell(v);
  }

  lemma FileIndex(p: Plan, v: Visit, f: Node) returns (i: nat)
    requires PlanOk(p) && v in Walk(p.root, null) && f in v.dir.order && !f.isDir
    ensures i < |PlanCells(p)| && PlanCells(p)[i] == FileCell(f)
    ensures PlanNeeds(p)[i] == Need(p.vol, FileCell(f))
    ensures ClusterOf(p.clu, f) == Placed(PlanNeeds(p), i)
  {
    WalksOk(p.root);
    CellsOfVisits(Walk(p.root, null), v, f);
    i :| 0 <= i < |PlanCells(p)| && PlanCells(p)[i] == FileCell(f);
  }

  lemma WalksOk(root: Node)
    requires TreeOk(root) && root.isDir
    ensures forall w :: w in Walk(root, null) ==> TreeOk(w.dir) && DirOk(w.dir) && w.dir.isDir
  {
    forall w | w in Walk(root, null) ensures TreeOk(w.dir) && DirOk(w.dir) && w.dir.isDir {
      WalkClosed(root, null, w);
      TreeDirOk(w.dir);
    }
  }

  /** The root is the first cell, so its clusters start at 2. */
  lemma RootAtTwo(p: Plan)
    requires PlanOk(p)
    ensures Visit(p.root, null) in Walk(p.root, null)
    ensures |PlanCells(p)| > 0 && PlanCells(p)[0] == DirCell(Visit(p.root, null))
    ensures ClusterOf(p.clu, p.root) == FIRST_CLUSTER
  {
    var vs := Walk(p.root, null);
    assert vs[0] == Visit(p.root, null);
    FirstCell(vs);
    assert PlanNeeds(p)[0] >= 1;
    assert PlanNeeds(p)[..0] == [];
  }

  lemma {:induction false} FirstCell(vs: seq<Visit>)
    requires vs != []
    ensures |Cells(vs)| > 0 && Cells(vs)[0] == DirCell(vs[0])
    decreases |vs|
  {
    if |vs| > 1 { FirstCell(vs[..|vs| - 1]); }
  }
}
