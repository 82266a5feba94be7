/** The 32-byte entries of one directory, first with blank cluster fields, then with them filled in. */
module Directory {
  import opened Bytes
  import opened ShortNames
  import opened LongNames
  import opened Tree
  import opened Volume

  const ATTR_DIR: byte := 0x10
  const ATTR_VOLUME: byte := 0x08

  /** Whose first cluster belongs in an entry. */
  datatype Marker = NoNode | SelfOf(dir: Node) | ParentOf(parent: Node) | ChildOf(child: Node)

  datatype Slot = Slot(entry: Entry, marker: Marker)

  const DOT_NAME: seq<byte> := [0x2E] + Repeat(0x20, 10)
  const DOTDOT_NAME: seq<byte> := [0x2E, 0x2E] + Repeat(0x20, 9)

  function BlankEntry(raw11: seq<byte>, attr: byte, size: nat, time: nat, date: nat): (e: Entry)
    requires |raw11| == 11 && size < 0x1_0000_0000 && time < 0x1_0000 && date < 0x1_0000
    ensures e[..11] == raw11 && e[11] == attr && Get32(e, 28) == size
  {
    var e := raw11 + [attr, 0, 0] + (Le16(time) + Le16(date) + Le16(date)) + [0, 0] + (Le16(time) + Le16(date))
             + [0, 0] + Le32(size);
    assert e[28..32] == Le32(size);
    GetLe32(e, 28, size);
    e
  }

  /** The entry with its first-cluster fields packed in. */
  function WithCluster(e: Entry, c: nat): (r: Entry)
    requires c < 0x1_0000_0000
    ensures r[..11] == e[..11] && r[11] == e[11] && r[0] == e[0] && Get32(r, 28) == Get32(e, 28)
    ensures First(r) == c && r[12..20] == e[12..20] && r[22..26] == e[22..26]
  {
    var r := e[..20] + Le16(c / 0x1_0000) + e[22..26] + Le16(c % 0x1_0000) + e[28..];
    assert r[20..22] == Le16(c / 0x1_0000) && r[26..28] == Le16(c % 0x1_0000);
    GetLe16(r, 20, c / 0x1_0000);
    GetLe16(r, 26, c % 0x1_0000);
    r
  }

  /** The first cluster an entry names. */
  function First(e: Entry): (c: nat)
    ensures c < 0x1_0000_0000
  {
    Get16(e, 20) * 0x1_0000 + Get16(e, 26)
  }

  function NodeEntry(n: Node, raw11: seq<byte>): (e: Entry)
    requires Storable(n) && |raw11| == 11
  {
    BlankEntry(raw11, if n.isDir then ATTR_DIR else 0, if n.isDir then 0 else |n.data|, n.time, n.date)
  }

  function Blank(es: seq<Entry>): (ss: seq<Slot>)
    ensures |ss| == |es|
  {
    seq(|es|, i requires 0 <= i < |es| => Slot(es[i], NoNode))
  }

  function NodeSlots(n: Node, s: Short): (ss: seq<Slot>)
    requires Storable(n)
    ensures ss != []
  {
    (if s.lossy then Blank(LongEntries(n.name, Checksum(Raw(s)))) else []) + [Slot(NodeEntry(n, Raw(s)), ChildOf(n))]
  }

  predicate AllStorable(nodes: seq<Node>) { forall i :: 0 <= i < |nodes| ==> Storable(nodes[i]) }

  function ChildSlots(nodes: seq<Node>, shorts: seq<Short>): (ss: seq<Slot>)
    requires |nodes| == |shorts| && AllStorable(nodes)
  {
    if nodes == [] then [] else NodeSlots(nodes[0], shorts[0]) + ChildSlots(nodes[1..], shorts[1..])
  }

  function Names(nodes: seq<Node>): (ns: seq<Name>)
    ensures |ns| == |nodes| && forall i :: 0 <= i < |ns| ==> ns[i] == nodes[i].name
  {
    seq(|nodes|, i requires 0 <= i < |nodes| => nodes[i].name)
  }

  function Shorts(d: Node): (ss: seq<Short>)
    ensures |ss| == |d.order|
  {
    ChooseAll(Names(d.order), {})
  }

  /** The entries ahead of the children: the label in the root, "." and ".." elsewhere. */
  function HeadSlots(v: Visit, l: Tag): (ss: seq<Slot>)
    requires Storable(v.dir) && TagOk(l)
  {
    if v.parent == null then [Slot(BlankEntry(l.raw11, ATTR_VOLUME, 0, l.time, l.date), NoNode)]
    else [Slot(BlankEntry(DOT_NAME, ATTR_DIR, 0, v.dir.time, v.dir.date), SelfOf(v.dir)),
          Slot(BlankEntry(DOTDOT_NAME, ATTR_DIR, 0, v.dir.time, v.dir.date), ParentOf(v.parent))]
  }

  predicate DirOk(d: Node) { Storable(d) && AllStorable(d.order) }

  function DirSlots(v: Visit, l: Tag): (ss: seq<Slot>)
    requires DirOk(v.dir) && TagOk(l)
    ensures |ss| >= 1
  {
    HeadSlots(v, l) + ChildSlots(v.dir.order, Shorts(v.dir))
  }

  /** First clusters by node; a node without one (an empty file) has 0. */
  type ClusterMap = map<Node, nat>

  ghost predicate ClustersOk(clu: ClusterMap) { forall n :: n in clu ==> clu[n] < 0x1_0000_0000 }

  function ClusterOf(clu: ClusterMap, n: Node): nat { if n in clu then clu[n] else 0 }

  /** The cluster a marker stands for; ".." of a directory in the root is 0 by convention. */
  function MarkerCluster(m: Marker, root: Node, clu: ClusterMap): nat
    requires !m.NoNode?
  {
    match m
    case SelfOf(d) => ClusterOf(clu, d)
    case ParentOf(p) => if p == root then 0 else ClusterOf(clu, p)
    case ChildOf(n) => ClusterOf(clu, n)
  }

  function Fill(s: Slot, root: Node, clu: ClusterMap): (e: Entry)
    requires ClustersOk(clu)
    ensures e[0] == s.entry[0] && e[11] == s.entry[11]
  {
    if s.marker.NoNode? then s.entry else WithCluster(s.entry, MarkerCluster(s.marker, root, clu))
  }

  function FillAll(ss: seq<Slot>, root: Node, clu: ClusterMap): (es: seq<Entry>)
    requires ClustersOk(clu)
    ensures |es| == |ss|
    ensures forall i :: 0 <= i < |ss| ==> es[i] == Fill(ss[i], root, clu)
  {
    if ss == [] then [] else [Fill(ss[0], root, clu)] + FillAll(ss[1..], root, clu)
  }

  lemma FillAllConcat(a: seq<Slot>, b: seq<Slot>, root: Node, clu: ClusterMap)
    requires ClustersOk(clu)
    ensures FillAll(a + b, root, clu) == FillAll(a, root, clu) + FillAll(b, root, clu)
  {
  }

  lemma FillBlank(es: seq<Entry>, root: Node, clu: ClusterMap)
    requires ClustersOk(clu)
    ensures FillAll(Blank(es), root, clu) == es
  {
  }

  // ---------------------------------------------------------------- the fields of an entry

  /** The fields of an entry for a directory or file, or of "." and "..", as FAT lays them out. */
  predicate Fields(e: Entry, raw11: seq<byte>, attr: byte, cluster: nat, size: nat, time: nat, date: nat)
  {
    && e[..11] == raw11 && e[11] == attr && e[12] == e[13] == 0 && Get16(e, 14) == time && Get16(e, 16) == date
    && Get16(e, 18) == date && 0x1_0000 * Get16(e, 20) + Get16(e, 26) == cluster && Get16(e, 22) == time
    && Get16(e, 24) == date && Get32(e, 28) == size
  }

  lemma BlankParts(raw11: seq<byte>, attr: byte, size: nat, time: nat, date: nat)
    requires |raw11| == 11 && size < 0x1_0000_0000 && time < 0x1_0000 && date < 0x1_0000
    ensures var e := BlankEntry(raw11, attr, size, time, date);
            && e[12] == e[13] == 0 && e[14..16] == e[22..24] == Le16(time)
            && e[16..18] == e[18..20] == e[24..26] == Le16(date) && e[20..22] == e[26..28] == [0, 0]
  {
    hide Le16, Get32;
    var t, d := Le16(time), Le16(date);
    var e := BlankEntry(raw11, attr, size, time, date);
    assert e == raw11 + [attr, 0, 0] + t + d + d + [0, 0] + t + d + [0, 0] + Le32(size);
  }

  lemma BlankFields(raw11: seq<byte>, attr: byte, size: nat, time: nat, date: nat)
    requires |raw11| == 11 && size < 0x1_0000_0000 && time < 0x1_0000 && date < 0x1_0000
    ensures Fields(BlankEntry(raw11, attr, size, time, date), raw11, attr, 0, size, time, date)
  {
    hide Get32, Get16, BlankEntry, Le16;
    var e := BlankEntry(raw11, attr, size, time, date);
    BlankParts(raw11, attr, size, time, date);
    assert Le16(0) == [0, 0] by { ZeroWord(); }
    GetLe16(e, 14, time);
    GetLe16(e, 16, date);
    GetLe16(e, 18, date);
    GetLe16(e, 20, 0);
    GetLe16(e, 22, time);
    GetLe16(e, 24, date);
    GetLe16(e, 26, 0);
  }

  lemma ZeroWord()
    ensures Le16(0) == [0, 0]
  {
  }

  lemma ClusterFields(e: Entry, raw11: seq<byte>, attr: byte, size: nat, time: nat, date: nat, c: nat)
    requires Fields(e, raw11, attr, 0, size, time, date) && c < 0x1_0000_0000
    ensures Fields(WithCluster(e, c), raw11, attr, c, size, time, date)
  {
    hide Get32;
    var r := WithCluster(e, c);
    assert forall k :: 12 <= k < 20 ==> r[k] == r[12..20][k - 12] == e[12..20][k - 12] == e[k];
    assert forall k :: 22 <= k < 26 ==> r[k] == r[22..26][k - 22] == e[22..26][k - 22] == e[k];
  }

  lemma NodeFields(n: Node, s: Short, root: Node, clu: ClusterMap)
    requires Storable(n) && ClustersOk(clu)
    ensures var es := FillAll(NodeSlots(n, s), root, clu);
            Fields(es[|es| - 1], Raw(s), if n.isDir then 0x10 else 0, ClusterOf(clu, n),
                   if n.isDir then 0 else |n.data|, n.time, n.date)
  {
    hide Fields, NodeEntry, Fill, Raw, LongEntries, Checksum, Storable;
    EntryFields(n, Raw(s), root, clu);
  }

  lemma EntryFields(n: Node, raw11: seq<byte>, root: Node, clu: ClusterMap)
    requires Storable(n) && ClustersOk(clu) && |raw11| == 11
    ensures Fields(Fill(Slot(NodeEntry(n, raw11), ChildOf(n)), root, clu), raw11, if n.isDir then 0x10 else 0,
                   ClusterOf(clu, n), if n.isDir then 0 else |n.data|, n.time, n.date)
  {
    hide Fields, BlankEntry, WithCluster;
    var size := if n.isDir then 0 else |n.data|;
    BlankFields(raw11, if n.isDir then ATTR_DIR else 0, size, n.time, n.date);
    ClusterFields(NodeEntry(n, raw11), raw11, if n.isDir then ATTR_DIR else 0, size, n.time, n.date, ClusterOf(clu, n));
  }

  /** Where the short entry of the j-th child stands, and what it says. */
  lemma {:induction false} ChildFields(nodes: seq<Node>, shorts: seq<Short>, root: Node, clu: ClusterMap, j: nat)
    returns (k: nat)
    requires |nodes| == |shorts| && AllStorable(nodes) && ClustersOk(clu) && j < |nodes|
    ensures k < |ChildSlots(nodes, shorts)|
    ensures var n := nodes[j];
            Fields(FillAll(ChildSlots(nodes, shorts), root, clu)[k], Raw(shorts[j]), if n.isDir then 0x10 else 0,
                   ClusterOf(clu, n), if n.isDir then 0 else |n.data|, n.time, n.date)
    decreases |nodes|
  {
    hide Fields, Fill, NodeSlots, Raw, ChildSlots, FillAll;
    var group, rest := NodeSlots(nodes[0], shorts[0]), ChildSlots(nodes[1..], shorts[1..]);
    FirstGroup(nodes, shorts);
    FillAllConcat(group, rest, root, clu);
    if j == 0 {
      k := |group| - 1;
      NodeFields(nodes[0], shorts[0], root, clu);
    } else {
      var i := ChildFields(nodes[1..], shorts[1..], root, clu, j - 1);
      k := |group| + i;
    }
  }

  lemma FirstGroup(nodes: seq<Node>, shorts: seq<Short>)
    requires |nodes| == |shorts| && AllStorable(nodes) && nodes != []
    ensures ChildSlots(nodes, shorts) == NodeSlots(nodes[0], shorts[0]) + ChildSlots(nodes[1..], shorts[1..])
  {
    hide NodeSlots;
  }

  /** The label in the root, and "." and ".." elsewhere; ".." names cluster 0 for the root. */
  lemma HeadFields(v: Visit, t: Tag, root: Node, clu: ClusterMap)
    requires Storable(v.dir) && TagOk(t) && ClustersOk(clu)
    ensures var es := FillAll(HeadSlots(v, t), root, clu);
            if v.parent == null then |es| == 1 && Fields(es[0], t.raw11, 0x08, 0, 0, t.time, t.date)
            else
              && |es| == 2
              && Fields(es[0], [0x2E] + Repeat(0x20, 10), 0x10, ClusterOf(clu, v.dir), 0, v.dir.time, v.dir.date)
              && Fields(es[1], [0x2E, 0x2E] + Repeat(0x20, 9), 0x10,
                        if v.parent == root then 0 else ClusterOf(clu, v.parent), 0, v.dir.time, v.dir.date)
  {
    hide Fields, BlankEntry, WithCluster;
    var d := v.dir;
    if v.parent == null {
      BlankFields(t.raw11, ATTR_VOLUME, 0, t.time, t.date);
    } else {
      BlankFields(DOT_NAME, ATTR_DIR, 0, d.time, d.date);
      BlankFields(DOTDOT_NAME, ATTR_DIR, 0, d.time, d.date);
      ClusterFields(BlankEntry(DOT_NAME, ATTR_DIR, 0, d.time, d.date), DOT_NAME, ATTR_DIR, 0, d.time, d.date,
                    ClusterOf(clu, d));
      ClusterFields(BlankEntry(DOTDOT_NAME, ATTR_DIR, 0, d.time, d.date), DOTDOT_NAME, ATTR_DIR, 0, d.time, d.date,
                    if v.parent == root then 0 else ClusterOf(clu, v.parent));
    }
  }

  /** The same in the listing of the whole directory, behind its head. */
  lemma ChildInDir(v: Visit, t: Tag, root: Node, clu: ClusterMap, j: nat) returns (k: nat)
    requires DirOk(v.dir) && TagOk(t) && ClustersOk(clu) && j < |v.dir.order|
    ensures k < |DirSlots(v, t)|
    ensures var n := v.dir.order[j];
            Fields(FillAll(DirSlots(v, t), root, clu)[k], Raw(Shorts(v.dir)[j]), if n.isDir then 0x10 else 0,
                   ClusterOf(clu, n), if n.isDir then 0 else |n.data|, n.time, n.date)
  {
    hide ChildSlots, HeadSlots, Fields, Fill, Raw, FillAll;
    var i := ChildFields(v.dir.order, Shorts(v.dir), root, clu, j);
    FillAllConcat(HeadSlots(v, t), ChildSlots(v.dir.order, Shorts(v.dir)), root, clu);
    k := |HeadSlots(v, t)| + i;
  }

  /** "." and ".." head the listing of every directory but the root. */
  lemma DotsAhead(v: Visit, t: Tag, root: Node, clu: ClusterMap)
    requires DirOk(v.dir) && TagOk(t) && ClustersOk(clu) && v.parent != null
    ensures var es := FillAll(DirSlots(v, t), root, clu);
            && |es| >= 2
            && es[0][..11] == [0x2E] + Repeat(0x20, 10) && es[0][11] == 0x10 && First(es[0]) == ClusterOf(clu, v.dir)
            && es[1][..11] == [0x2E, 0x2E] + Repeat(0x20, 9) && es[1][11] == 0x10
            && First(es[1]) == if v.parent == root then 0 else ClusterOf(clu, v.parent)
  {
    hide ChildSlots, HeadSlots, Get16, Get32, Fill;
    FillAllConcat(HeadSlots(v, t), ChildSlots(v.dir.order, Shorts(v.dir)), root, clu);
    HeadFields(v, t, root, clu);
  }

  // ---------------------------------------------------------------- no entry ends the directory early

  /** No slot starts with the byte that ends a directory. */
  predicate SlotsLive(ss: seq<Slot>)
  {
    forall k :: 0 <= k < |ss| ==> ss[k].entry[0] != 0
  }

  lemma LiveConcat(a: seq<Slot>, b: seq<Slot>)
    requires SlotsLive(a) && SlotsLive(b)
    ensures SlotsLive(a + b)
  {
  }

  lemma LongSlotsLive(name: Name, chk: byte)
    requires |name| <= MAX_UNITS
    ensures SlotsLive(Blank(LongEntries(name, chk)))
  {
    LongEntriesShape(name, chk);
    hide LongEntries;
  }

  lemma NodeSlotsLive(n: Node, s: Short)
    requires Storable(n) && Wellformed(s)
    ensures SlotsLive(NodeSlots(n, s))
  {
    LongSlotsLive(n.name, Checksum(Raw(s)));
    RawFirst(s);
    hide LongEntries, Raw, Wellformed;
    var e := NodeEntry(n, Raw(s));
    assert e[0] == e[..11][0];
  }

  lemma {:induction false} ChildSlotsLive(nodes: seq<Node>, shorts: seq<Short>)
    requires |nodes| == |shorts| && AllStorable(nodes)
    requires forall i :: 0 <= i < |shorts| ==> Wellformed(shorts[i])
    ensures SlotsLive(ChildSlots(nodes, shorts))
    decreases |nodes|
  {
    hide Storable, Wellformed, NodeSlots, SlotsLive;
    if nodes != [] {
      NodeSlotsLive(nodes[0], shorts[0]);
      ChildSlotsLive(nodes[1..], shorts[1..]);
      LiveConcat(NodeSlots(nodes[0], shorts[0]), ChildSlots(nodes[1..], shorts[1..]));
    } else {
      NoSlotsLive();
    }
  }

  lemma NoSlotsLive()
    ensures SlotsLive([])
  {
  }

  lemma DirSlotsLive(v: Visit, l: Tag)
    requires DirOk(v.dir) && TagOk(l)
    ensures SlotsLive(DirSlots(v, l))
  {
    ChooseAllFresh(Names(v.dir.order), {});
    hide Wellformed, ChildSlots;
    ChildSlotsLive(v.dir.order, Shorts(v.dir));
    HeadSlotsLive(v, l);
    LiveConcat(HeadSlots(v, l), ChildSlots(v.dir.order, Shorts(v.dir)));
  }

  lemma HeadSlotsLive(v: Visit, l: Tag)
    requires Storable(v.dir) && TagOk(l)
    ensures SlotsLive(HeadSlots(v, l))
  {
    var head := HeadSlots(v, l);
    assert forall k :: 0 <= k < |head| ==> head[k].entry[0] == head[k].entry[..11][0];
  }

  // ---------------------------------------------------------------- the program's loops

  /** The slots still to come when children from index i on are left and `taken` are used up. */
  function Remaining(nodes: seq<Node>, taken: set<Name>, i: nat): seq<Slot>
    requires i <= |nodes| && AllStorable(nodes)
  {
    ChildSlots(nodes[i..], ChooseAll(Names(nodes)[i..], taken))
  }

  lemma RemainingStep(out: seq<Slot>, nodes: seq<Node>, taken: set<Name>, i: nat)
    requires i < |nodes| && AllStorable(nodes)
    ensures var s := Choose(nodes[i].name, taken);
            out + Remaining(nodes, taken, i)
            == out + NodeSlots(nodes[i], s) + Remaining(nodes, taken + {KeyOf(s)}, i + 1)
  {
    var s := Choose(nodes[i].name, taken);
    var rest := ChooseAll(Names(nodes)[i + 1..], taken + {KeyOf(s)});
    assert Names(nodes)[i..][1..] == Names(nodes)[i + 1..] && nodes[i..][1..] == nodes[i + 1..];
    assert ChooseAll(Names(nodes)[i..], taken) == [s] + rest;
    assert ([s] + rest)[1..] == rest;
    assert Remaining(nodes, taken, i) == NodeSlots(nodes[i], s) + Remaining(nodes, taken + {KeyOf(s)}, i + 1);
  }

  /** One child of a directory: its long-name entries when it needs them, then its short entry. */
  method AppendNode(out: seq<Slot>, node: Node, taken: set<Name>) returns (out': seq<Slot>, taken': set<Name>)
    requires Storable(node)
    ensures out' == out + NodeSlots(node, Choose(node.name, taken))
    ensures taken' == taken + {KeyOf(Choose(node.name, taken))}
  {
    hide Choose, KeyOf, Raw, Lossy, LongEntries, Blank, NodeEntry, Checksum;
    var raw11, lossy;
    raw11, lossy, taken' := ShortName(node.name, taken);
    out' := out;
    if lossy {
      var chk := LfnChecksum(raw11);
      var parts := EncodeLongName(node.name, chk);
      out' := out' + Blank(parts);
    } else {
      assert out == out + [];
    }
    SlotsAssoc(out, if lossy then Blank(LongEntries(node.name, Checksum(raw11))) else [],
               [Slot(NodeEntry(node, raw11), ChildOf(node))]);
    out' := out' + [Slot(NodeEntry(node, raw11), ChildOf(node))];
  }

  lemma SlotsAssoc(a: seq<Slot>, b: seq<Slot>, c: seq<Slot>)
    ensures a + b + c == a + (b + c)
  {
  }

  method DirEntries(v: Visit, l: Tag) returns (out: seq<Slot>)
    requires DirOk(v.dir) && TagOk(l)
    ensures out == DirSlots(v, l)
  {
    hide NodeSlots, BlankEntry, Choose, KeyOf, ChildSlots, Remaining, DirSlots;
    var d := v.dir;
    var taken: set<Name> := {};
    out := [];
    if v.parent == null {
      out := out + [Slot(BlankEntry(l.raw11, ATTR_VOLUME, 0, l.time, l.date), NoNode)];
    }
    if v.parent != null {
      out := out + [Slot(BlankEntry(DOT_NAME, ATTR_DIR, 0, d.time, d.date), SelfOf(d))];
      out := out + [Slot(BlankEntry(DOTDOT_NAME, ATTR_DIR, 0, d.time, d.date), ParentOf(v.parent))];
    }
    assert out == HeadSlots(v, l);
    AllRemain(v, l);
    var i := 0;
    while i < |d.order|
      invariant 0 <= i <= |d.order|
      invariant out + Remaining(d.order, taken, i) == DirSlots(v, l)
    {
      RemainingStep(out, d.order, taken, i);
      out, taken := AppendNode(out, d.order[i], taken);
      i := i + 1;
    }
    NoneRemain(d.order, taken);
    assert out + [] == out;
  }

  lemma AllRemain(v: Visit, l: Tag)
    requires DirOk(v.dir) && TagOk(l)
    ensures HeadSlots(v, l) + Remaining(v.dir.order, {}, 0) == DirSlots(v, l)
  {
    hide ChildSlots, HeadSlots;
    assert v.dir.order[0..] == v.dir.order && Names(v.dir.order)[0..] == Names(v.dir.order);
  }

  lemma NoneRemain(nodes: seq<Node>, taken: set<Name>)
    requires AllStorable(nodes)
    ensures Remaining(nodes, taken, |nodes|) == []
  {
  }
}
