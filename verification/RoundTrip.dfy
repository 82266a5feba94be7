/** What the writer lays out, the strict reader finds again: exactly when, and exactly what. */
module RoundTrip {
  import opened Bytes
  import opened Geometry
  import opened ShortNames
  import opened LongNames
  import opened Tree
  import opened Directory
  import opened Allocator
  import opened Runs
  import opened Volume
  import opened Layout
  import opened Reader
  import opened ChainReads
  import opened Wrappers

  // ---------------------------------------------------------------- going through one directory

  lemma {:induction false} StepsConcat(s: State, a: seq<Entry>, b: seq<Entry>, prefix: Name)
    ensures Steps(s, a + b, prefix) == Steps(Steps(s, a, prefix), b, prefix)
    decreases |a|
  {
    if a == [] {
      assert a + b == b;
    } else {
      assert (a + b)[1..] == a[1..] + b;
      StepsConcat(Step(s, a[0], prefix), a[1..], b, prefix);
    }
  }

  lemma {:induction false} StepsLong(s: State, es: seq<Entry>, prefix: Name)
    requires forall k :: 0 <= k < |es| ==> es[k][11] == ATTR_LFN
    ensures Steps(s, es, prefix) == s.(lfn := s.lfn + es)
    decreases |es|
  {
    if es == [] {
      assert s.lfn + es == s.lfn;
    } else {
      StepsLong(Step(s, es[0], prefix), es[1..], prefix);
      assert s.lfn + [es[0]] + es[1..] == s.lfn + es;
    }
  }

  /** A node's short entry as it ends up in the image. */
  function FilledEntry(n: Node, s: Short, clu: ClusterMap): (e: Entry)
    requires Storable(n) && ClustersOk(clu)
    ensures e[..11] == Raw(s) && First(e) == ClusterOf(clu, n)
    ensures Get32(e, 28) == if n.isDir then 0 else |n.data|
    ensures e[11] == if n.isDir then ATTR_DIR else 0
  {
    WithCluster(NodeEntry(n, Raw(s)), ClusterOf(clu, n))
  }

  /** The name the reader knows a node by. */
  function KnownAs(n: Node, s: Short): Name { if s.lossy then n.name else AsciiDecode(Raw(s)) }

  lemma LossyNotEmpty(name: Name)
    requires Lossy(name)
    ensures name != []
  {
  }

  function LongOf(n: Node, sh: Short): (es: seq<Entry>)
    requires Storable(n)
    ensures forall k :: 0 <= k < |es| ==> es[k][11] == ATTR_LFN
  {
    LongEntriesShape(n.name, Checksum(Raw(sh)));
    if sh.lossy then LongEntries(n.name, Checksum(Raw(sh))) else []
  }

  lemma NodeFilled(n: Node, sh: Short, root: Node, clu: ClusterMap)
    requires Storable(n) && ClustersOk(clu)
    ensures FillAll(NodeSlots(n, sh), root, clu) == LongOf(n, sh) + [FilledEntry(n, sh, clu)]
  {
    var blanks, last := Blank(LongOf(n, sh)), [Slot(NodeEntry(n, Raw(sh)), ChildOf(n))];
    assert NodeSlots(n, sh) == blanks + last;
    FillAllConcat(blanks, last, root, clu);
    FillBlank(LongOf(n, sh), root, clu);
    assert FillAll(last, root, clu) == [FilledEntry(n, sh, clu)];
  }

  /** The long entries of a node give its name back, in the number the reader expects. */
  lemma KeyOfNode(n: Node, sh: Short, clu: ClusterMap, prefix: Name)
    requires Storable(n) && ClustersOk(clu) && sh.lossy == Lossy(n.name)
    ensures KeyFor(FilledEntry(n, sh, clu), LongOf(n, sh)) == KnownAs(n, sh)
    ensures LfnProblems(LongOf(n, sh), prefix) == []
  {
    if sh.lossy {
      LossyNotEmpty(n.name);
      LongEntriesShape(n.name, Checksum(Raw(sh)));
      LongNameRoundTrip(n.name, Checksum(Raw(sh)));
    }
  }

  lemma StepsNode(s: State, n: Node, sh: Short, root: Node, clu: ClusterMap, prefix: Name)
    requires Storable(n) && ClustersOk(clu) && Wellformed(sh) && sh.lossy == Lossy(n.name) && s.lfn == []
    ensures Steps(s, FillAll(NodeSlots(n, sh), root, clu), prefix)
         == State(s.seen[KnownAs(n, sh) := FilledEntry(n, sh, clu)], [],
                  Report(s.report.checked + 1, s.report.problems))
  {
    var long, e := LongOf(n, sh), FilledEntry(n, sh, clu);
    NodeFilled(n, sh, root, clu);
    EntryIsShort(n, sh, clu);
    StepsGroup(s, long, e, prefix);
    KeyOfNode(n, sh, clu, prefix);
  }

  lemma EntryIsShort(n: Node, sh: Short, clu: ClusterMap)
    requires Storable(n) && ClustersOk(clu) && Wellformed(sh)
    ensures !IsDotOrDeleted(FilledEntry(n, sh, clu))
  {
    var e := FilledEntry(n, sh, clu);
    RawFirst(sh);
    assert e[0] == e[..11][0];
  }

  /** Long-name entries, then a short entry: one name checked. */
  lemma StepsGroup(s: State, long: seq<Entry>, e: Entry, prefix: Name)
    requires s.lfn == [] && (forall k :: 0 <= k < |long| ==> long[k][11] == ATTR_LFN)
    requires (e[11] == ATTR_DIR || e[11] == 0) && !IsDotOrDeleted(e)
    ensures Steps(s, long + [e], prefix)
         == State(s.seen[KeyFor(e, long) := e], [],
                  Report(s.report.checked + 1, s.report.problems + LfnProblems(long, prefix)))
  {
    StepsConcat(s, long, [e], prefix);
    StepsLong(s, long, prefix);
    assert s.lfn + long == long;
    StepShort(s.(lfn := long), e, prefix);
    assert Steps(s.(lfn := long), [e], prefix) == Step(s.(lfn := long), e, prefix);
  }

  lemma StepShort(s: State, e: Entry, prefix: Name)
    requires e[11] == ATTR_DIR || e[11] == 0
    requires !IsDotOrDeleted(e)
    ensures Step(s, e, prefix) == State(s.seen[KeyFor(e, s.lfn) := e], [],
                                        Report(s.report.checked + 1, s.report.problems + LfnProblems(s.lfn, prefix)))
  {
  }

  /** A map after inserting the keys one by one, later ones replacing earlier ones. */
  function Inserted(keys: seq<Name>, es: seq<Entry>, seen: map<Name, Entry>): map<Name, Entry>
    requires |keys| == |es|
    decreases |keys|
  {
    if keys == [] then seen else Inserted(keys[1..], es[1..], seen[keys[0] := es[0]])
  }

  lemma {:induction false} InsertedKeys(keys: seq<Name>, es: seq<Entry>, seen: map<Name, Entry>, key: Name)
    requires |keys| == |es|
    ensures key in Inserted(keys, es, seen) <==> key in seen || key in keys
    decreases |keys|
  {
    if keys != [] {
      InsertedKeys(keys[1..], es[1..], seen[keys[0] := es[0]], key);
      assert key in keys <==> key == keys[0] || key in keys[1..];
    }
  }

  lemma {:induction false} InsertedKept(keys: seq<Name>, es: seq<Entry>, seen: map<Name, Entry>, key: Name)
    requires |keys| == |es| && key in seen && key !in keys
    ensures key in Inserted(keys, es, seen) && Inserted(keys, es, seen)[key] == seen[key]
    decreases |keys|
  {
    if keys != [] {
      InsertedKept(keys[1..], es[1..], seen[keys[0] := es[0]], key);
    }
  }

  lemma {:induction false} InsertedAt(keys: seq<Name>, es: seq<Entry>, seen: map<Name, Entry>, i: nat)
    requires |keys| == |es| && i < |keys|
    requires forall j, k :: 0 <= j < k < |keys| ==> keys[j] != keys[k]
    ensures keys[i] in Inserted(keys, es, seen) && Inserted(keys, es, seen)[keys[i]] == es[i]
    decreases |keys|
  {
    if i == 0 {
      InsertedKept(keys[1..], es[1..], seen[keys[0] := es[0]], keys[0]);
    } else {
      InsertedAt(keys[1..], es[1..], seen[keys[0] := es[0]], i - 1);
    }
  }

  function KeysOf(nodes: seq<Node>, shorts: seq<Short>): (ks: seq<Name>)
    requires |nodes| == |shorts|
    ensures |ks| == |nodes| && forall i :: 0 <= i < |ks| ==> ks[i] == KnownAs(nodes[i], shorts[i])
  {
    seq(|nodes|, i requires 0 <= i < |nodes| => KnownAs(nodes[i], shorts[i]))
  }

  function EntriesOf(nodes: seq<Node>, shorts: seq<Short>, clu: ClusterMap): (es: seq<Entry>)
    requires |nodes| == |shorts| && AllStorable(nodes) && ClustersOk(clu)
    ensures |es| == |nodes| && forall i :: 0 <= i < |es| ==> es[i] == FilledEntry(nodes[i], shorts[i], clu)
  {
    seq(|nodes|, i requires 0 <= i < |nodes| => FilledEntry(nodes[i], shorts[i], clu))
  }

  /** The entries seen, by name, after a directory's children. */
  function SeenAfter(nodes: seq<Node>, shorts: seq<Short>, clu: ClusterMap, seen: map<Name, Entry>): map<Name, Entry>
    requires |nodes| == |shorts| && AllStorable(nodes) && ClustersOk(clu)
  {
    Inserted(KeysOf(nodes, shorts), EntriesOf(nodes, shorts, clu), seen)
  }

  lemma SeenFirst(nodes: seq<Node>, shorts: seq<Short>, clu: ClusterMap, seen: map<Name, Entry>)
    requires |nodes| == |shorts| > 0 && AllStorable(nodes) && ClustersOk(clu)
    ensures SeenAfter(nodes, shorts, clu, seen)
         == SeenAfter(nodes[1..], shorts[1..], clu,
                      seen[KnownAs(nodes[0], shorts[0]) := FilledEntry(nodes[0], shorts[0], clu)])
  {
    assert KeysOf(nodes, shorts)[1..] == KeysOf(nodes[1..], shorts[1..]);
    assert EntriesOf(nodes, shorts, clu)[1..] == EntriesOf(nodes[1..], shorts[1..], clu);
  }

  /** Short names that fit the nodes they were chosen for. */
  predicate Match(nodes: seq<Node>, shorts: seq<Short>)
  {
    && |nodes| == |shorts|
    && forall i :: 0 <= i < |nodes| ==> Wellformed(shorts[i]) && shorts[i].lossy == Lossy(nodes[i].name)
  }

  lemma {:induction false} StepsChildren(s: State, nodes: seq<Node>, shorts: seq<Short>, root: Node, clu: ClusterMap,
                                         prefix: Name)
    requires Match(nodes, shorts) && AllStorable(nodes) && ClustersOk(clu) && s.lfn == []
    ensures Steps(s, FillAll(ChildSlots(nodes, shorts), root, clu), prefix)
         == State(SeenAfter(nodes, shorts, clu, s.seen), [], Report(s.report.checked + |nodes|, s.report.problems))
    decreases |nodes|
  {
    hide Step, NodeSlots, Fill, Storable, Wellformed;
    if nodes != [] {
      var a := FillAll(NodeSlots(nodes[0], shorts[0]), root, clu);
      var b := FillAll(ChildSlots(nodes[1..], shorts[1..]), root, clu);
      FillAllConcat(NodeSlots(nodes[0], shorts[0]), ChildSlots(nodes[1..], shorts[1..]), root, clu);
      assert FillAll(ChildSlots(nodes, shorts), root, clu) == a + b;
      StepsConcat(s, a, b, prefix);
      StepsNode(s, nodes[0], shorts[0], root, clu, prefix);
      var s1 := Steps(s, a, prefix);
      StepsChildren(s1, nodes[1..], shorts[1..], root, clu, prefix);
      SeenFirst(nodes, shorts, clu, s.seen);
    }
  }

  /** Label, "." and ".." leave no trace. */
  lemma StepsHead(v: Visit, t: Tag, root: Node, clu: ClusterMap, prefix: Name)
    requires Storable(v.dir) && TagOk(t) && ClustersOk(clu)
    ensures Steps(START, FillAll(HeadSlots(v, t), root, clu), prefix) == START
  {
    var slots := HeadSlots(v, t);
    var es := FillAll(slots, root, clu);
    assert forall k :: 0 <= k < |slots| ==> slots[k].entry[0] == slots[k].entry[..11][0];
    if v.parent == null {
      assert es == [es[0]] && es[0][11] == ATTR_VOLUME;
      assert Step(START, es[0], prefix) == START;
    } else {
      assert es[0][0] == 0x2E && es[1][0] == 0x2E && es[0][11] == ATTR_DIR && es[1][11] == ATTR_DIR;
      assert Step(START, es[0], prefix) == START && Step(START, es[1], prefix) == START;
      assert es[1..][0] == es[1] && es[1..][1..] == [];
      assert Steps(START, es, prefix) == Steps(START, es[1..], prefix) == Steps(START, es[1..][1..], prefix);
    }
  }

  lemma ShortsMatch(d: Node)
    requires DirOk(d)
    ensures Match(d.order, Shorts(d))
  {
    ChooseAllFresh(Names(d.order), {});
  }

  /** The state after all entries of a directory. */
  lemma StepsDir(v: Visit, t: Tag, root: Node, clu: ClusterMap, prefix: Name)
    requires DirOk(v.dir) && TagOk(t) && ClustersOk(clu)
    ensures Steps(START, FillAll(DirSlots(v, t), root, clu), prefix)
         == State(SeenAfter(v.dir.order, Shorts(v.dir), clu, map[]), [], Report(|v.dir.order|, []))
  {
    var head, rest := HeadSlots(v, t), ChildSlots(v.dir.order, Shorts(v.dir));
    ShortsMatch(v.dir);
    FillAllConcat(head, rest, root, clu);
    StepsConcat(START, FillAll(head, root, clu), FillAll(rest, root, clu), prefix);
    StepsHead(v, t, root, clu, prefix);
    StepsChildren(START, v.dir.order, Shorts(v.dir), root, clu, prefix);
  }

  // ---------------------------------------------------------------- who is seen

  /** Every child of the directory takes the long-name path. */
  predicate LongNamed(d: Node) { forall i :: 0 <= i < |d.order| ==> Lossy(d.order[i].name) }

  /** A padded 11-byte name is never the name of a node that has no long-name entry. */
  lemma PaddedIsNoName(s: Short, name: Name)
    requires Wellformed(s) && !Lossy(name)
    ensures AsciiDecode(Raw(s)) != name
  {
    var p := Pad(s.stem, 8) + Pad(s.ext, 3);
    forall i | 0 <= i < 11 ensures AsciiDecode(Raw(s))[i] == p[i] && p[i] != DOT {
      assert i < |s.stem| ==> Allowed(s.stem[i]);
      assert 8 <= i < 8 + |s.ext| ==> Allowed(s.ext[i - 8]);
    }
    assert DOT !in AsciiDecode(Raw(s));
    if LastDot(name) >= 0 {
      assert name[LastDot(name)] == DOT;
    } else {
      assert |name| <= 8;
    }
  }

  /** A node without a long-name entry is never found by its name. */
  lemma PlainNotSeen(d: Node, clu: ClusterMap, i: nat)
    requires DirOk(d) && ClustersOk(clu) && DistinctNames(d.order) && i < |d.order| && !Lossy(d.order[i].name)
    ensures d.order[i].name !in SeenAfter(d.order, Shorts(d), clu, map[])
  {
    ShortsMatch(d);
    var keys := KeysOf(d.order, Shorts(d));
    forall j | 0 <= j < |keys| ensures keys[j] != d.order[i].name {
      if !Lossy(d.order[j].name) { PaddedIsNoName(Shorts(d)[j], d.order[i].name); }
    }
    InsertedKeys(keys, EntriesOf(d.order, Shorts(d), clu), map[], d.order[i].name);
  }

  /** With long names throughout, a child is seen under its name with its own size and first cluster. */
  lemma ChildSeen(d: Node, clu: ClusterMap, i: nat)
    requires DirOk(d) && ClustersOk(clu) && DistinctNames(d.order) && i < |d.order| && LongNamed(d)
    ensures var seen := SeenAfter(d.order, Shorts(d), clu, map[]);
            && d.order[i].name in seen
            && First(seen[d.order[i].name]) == ClusterOf(clu, d.order[i])
            && Get32(seen[d.order[i].name], 28) == if d.order[i].isDir then 0 else |d.order[i].data|
  {
    ShortsMatch(d);
    var keys := KeysOf(d.order, Shorts(d));
    assert forall j :: 0 <= j < |keys| ==> keys[j] == d.order[j].name;
    InsertedAt(keys, EntriesOf(d.order, Shorts(d), clu), map[], i);
  }

  /** Where all names take the long path, the names recovered are exactly the names stored. */
  lemma RecoveredNames(d: Node, clu: ClusterMap, key: Name)
    requires DirOk(d) && ClustersOk(clu) && LongNamed(d)
    ensures key in SeenAfter(d.order, Shorts(d), clu, map[]) <==> key in Names(d.order)
  {
    ShortsMatch(d);
    assert KeysOf(d.order, Shorts(d)) == Names(d.order);
    InsertedKeys(KeysOf(d.order, Shorts(d)), EntriesOf(d.order, Shorts(d), clu), map[], key);
  }

  // ---------------------------------------------------------------- the verdict, by induction over the tree

  predicate Passes(r: Option<Report>) { r.Some? && r.value.problems == [] }

  /** Problems once reported stay reported. */
  lemma {:induction false} ProblemsGrow(img: seq<byte>, g: Bpb, nodes: seq<Node>, h: nat, seen: map<Name, Entry>,
                                        r: Report, prefix: Name, fuel: nat)
    requires ForestOk(nodes, h)
    ensures var r' := CheckNodes(img, g, nodes, h, seen, r, prefix, fuel);
            r'.Some? ==> |r'.value.problems| >= |r.problems|
    ensures (exists i :: 0 <= i < |nodes| && nodes[i].name !in seen) ==>
              !Passes(CheckNodes(img, g, nodes, h, seen, r, prefix, fuel))
    decreases |nodes|
  {
    if nodes != [] {
      var r1 := CheckNode(img, g, nodes[0], seen, r, prefix, fuel);
      if r1.Some? {
        ProblemsGrow(img, g, nodes[1..], h, seen, r1.value, prefix, fuel);
        if i :| 0 <= i < |nodes| && nodes[i].name !in seen && i > 0 {
          assert nodes[1..][i - 1].name !in seen;
        }
      }
    }
  }

  /** An image as the reader opens it, with the tree and the first clusters it is compared against. */
  datatype View = View(img: seq<byte>, g: Bpb, root: Node, tag: Tag, clu: ClusterMap, fuel: nat)

  ghost predicate Sound(w: View)
  {
    && TreeOk(w.root) && w.root.isDir && TagOk(w.tag) && ClustersOk(w.clu)
    && forall v :: v in Walk(w.root, null) ==> DirOk(v.dir)
  }

  /** Reading a directory from its first cluster tells as much as its entries do. */
  ghost predicate Yields(w: View, v: Visit)
    requires Sound(w) && DirOk(v.dir)
  {
    var r := DirStream(w.img, w.g, ClusterOf(w.clu, v.dir), w.fuel);
    && r.Some?
    && forall prefix ::
         Steps(START, r.value, prefix) == Steps(START, FillAll(DirSlots(v, w.tag), w.root, w.clu), prefix)
  }

  /** Every directory of the tree can be read. */
  ghost predicate Readable(w: View)
  {
    Sound(w) && forall v :: v in Walk(w.root, null) ==> Yields(w, v)
  }

  function WalkOf(w: View, d: Node, prefix: Name): Option<Report>
    requires TreeOk(d)
  {
    WalkDir(w.img, w.g, d, ClusterOf(w.clu, d), prefix, w.fuel)
  }

  /** A node is looked up under its name and found, with its own size and first cluster. */
  predicate Found(clu: ClusterMap, seen: map<Name, Entry>, n: Node)
  {
    && n.name in seen
    && First(seen[n.name]) == ClusterOf(clu, n)
    && Get32(seen[n.name], 28) == if n.isDir then 0 else |n.data|
  }

  /** The walk below a directory came out as it should. */
  ghost predicate Settled(r: Option<Report>, n: Node)
    requires TreeOk(n)
  {
    && (Passes(r) <==> AllLossy(n.order, n.height))
    && (Passes(r) ==> r.value.checked == CountAll(n.order, n.height))
  }

  /** The outcomes of the walks below the given nodes; nothing to say about files. */
  function Inner(w: View, nodes: seq<Node>, h: nat, prefix: Name): (rs: seq<Option<Report>>)
    requires ForestOk(nodes, h)
    ensures |rs| == |nodes|
    ensures forall j :: 0 <= j < |nodes| && nodes[j].isDir ==>
              rs[j] == WalkOf(w, nodes[j], prefix + nodes[j].name + SLASH)
  {
    seq(|nodes|, j requires 0 <= j < |nodes| =>
      if nodes[j].isDir then WalkOf(w, nodes[j], prefix + nodes[j].name + SLASH) else None)
  }

  /** Adding up the reports of the directories among some nodes; one that failed fails them all. */
  function AddUp(nodes: seq<Node>, rs: seq<Option<Report>>, r: Report): Option<Report>
    requires |nodes| == |rs|
    decreases |nodes|
  {
    if nodes == [] then Some(r)
    else if !nodes[0].isDir then AddUp(nodes[1..], rs[1..], r)
    else if rs[0].None? then None
    else AddUp(nodes[1..], rs[1..], Report(r.checked + rs[0].value.checked, r.problems + rs[0].value.problems))
  }

  /** When every node is found, checking them is adding up the directories among them. */
  lemma {:induction false} CheckAddsUp(w: View, nodes: seq<Node>, h: nat, seen: map<Name, Entry>, r: Report,
                                       prefix: Name)
    requires ForestOk(nodes, h)
    requires forall j :: 0 <= j < |nodes| ==> Found(w.clu, seen, nodes[j])
    ensures CheckNodes(w.img, w.g, nodes, h, seen, r, prefix, w.fuel) == AddUp(nodes, Inner(w, nodes, h, prefix), r)
    decreases |nodes|
  {
    if nodes != [] {
      var n := nodes[0];
      assert Found(w.clu, seen, n);
      assert Inner(w, nodes, h, prefix)[1..] == Inner(w, nodes[1..], h, prefix);
      var r1 := CheckNode(w.img, w.g, n, seen, r, prefix, w.fuel);
      if r1.Some? {
        CheckAddsUp(w, nodes[1..], h, seen, r1.value, prefix);
      }
    }
  }

  lemma {:induction false} AddUpGrows(nodes: seq<Node>, rs: seq<Option<Report>>, r: Report)
    requires |nodes| == |rs| && r.problems != []
    ensures !Passes(AddUp(nodes, rs, r))
    decreases |nodes|
  {
    if nodes != [] {
      if !nodes[0].isDir {
        AddUpGrows(nodes[1..], rs[1..], r);
      } else if rs[0].Some? {
        AddUpGrows(nodes[1..], rs[1..], Report(r.checked + rs[0].value.checked, r.problems + rs[0].value.problems));
      }
    }
  }

  ghost predicate AllChildrenSettled(nodes: seq<Node>, rs: seq<Option<Report>>)
    requires |nodes| == |rs|
    requires forall j :: 0 <= j < |nodes| ==> TreeOk(nodes[j])
  {
    forall j :: 0 <= j < |nodes| ==> Lossy(nodes[j].name) && (nodes[j].isDir ==> Settled(rs[j], nodes[j]))
  }

  lemma TailSettled(nodes: seq<Node>, h: nat, rs: seq<Option<Report>>)
    requires ForestOk(nodes, h) && |rs| == |nodes| > 0 && AllChildrenSettled(nodes, rs)
    ensures ForestOk(nodes[1..], h) && AllChildrenSettled(nodes[1..], rs[1..])
    ensures Lossy(nodes[0].name) && (nodes[0].isDir ==> Settled(rs[0], nodes[0]))
    ensures !nodes[0].isDir ==> nodes[0].order == []
  {
    var rest, outs := nodes[1..], rs[1..];
    assert forall j :: 0 <= j < |rest| ==> rest[j] == nodes[j + 1] && outs[j] == rs[j + 1];
  }

  lemma {:induction false} AddUpVerdict(nodes: seq<Node>, h: nat, rs: seq<Option<Report>>, r: Report)
    requires ForestOk(nodes, h) && |rs| == |nodes| && r.problems == []
    requires AllChildrenSettled(nodes, rs)
    ensures Passes(AddUp(nodes, rs, r)) <==> AllLossy(nodes, h)
    ensures Passes(AddUp(nodes, rs, r)) ==>
              AddUp(nodes, rs, r).value.checked == r.checked + CountAll(nodes, h) - |nodes|
    decreases |nodes|
  {
    if nodes != [] {
      var n, rest, outs := nodes[0], nodes[1..], rs[1..];
      TailSettled(nodes, h, rs);
      CountStep(nodes, h);
      if !n.isDir {
        AddUpVerdict(rest, h, outs, r);
      } else if rs[0].Some? {
        var r1 := Report(r.checked + rs[0].value.checked, r.problems + rs[0].value.problems);
        assert AddUp(nodes, rs, r) == AddUp(rest, outs, r1);
        if Passes(rs[0]) {
          AddUpVerdict(rest, h, outs, r1);
        } else {
          AddUpGrows(rest, outs, r1);
        }
      }
    }
  }

  lemma CountStep(nodes: seq<Node>, h: nat)
    requires ForestOk(nodes, h) && nodes != []
    ensures CountAll(nodes, h) == 1 + CountAll(nodes[0].order, nodes[0].height) + CountAll(nodes[1..], h)
  {
  }

  lemma WalkStarts(w: View, v: Visit, prefix: Name)
    requires Sound(w) && v in Walk(w.root, null) && Yields(w, v)
    ensures TreeOk(v.dir) && DirOk(v.dir)
    ensures WalkOf(w, v.dir, prefix)
         == CheckNodes(w.img, w.g, v.dir.order, v.dir.height, SeenAfter(v.dir.order, Shorts(v.dir), w.clu, map[]),
                       Report(|v.dir.order|, []), prefix, w.fuel)
  {
    WalkClosed(w.root, null, v);
    StepsDir(v, w.tag, w.root, w.clu, prefix);
  }

  lemma WalkAddsUp(w: View, v: Visit, prefix: Name)
    requires Sound(w) && v in Walk(w.root, null) && Yields(w, v)
    requires LongNamed(v.dir)
    ensures TreeOk(v.dir)
    ensures WalkOf(w, v.dir, prefix)
         == AddUp(v.dir.order, Inner(w, v.dir.order, v.dir.height, prefix), Report(|v.dir.order|, []))
  {
    WalkStarts(w, v, prefix);
    AllFound(v.dir, w.clu);
    CheckAddsUp(w, v.dir.order, v.dir.height, SeenAfter(v.dir.order, Shorts(v.dir), w.clu, map[]),
                Report(|v.dir.order|, []), prefix);
  }

  lemma AllFound(d: Node, clu: ClusterMap)
    requires DirOk(d) && ClustersOk(clu) && DistinctNames(d.order) && LongNamed(d)
    ensures forall j :: 0 <= j < |d.order| ==> Found(clu, SeenAfter(d.order, Shorts(d), clu, map[]), d.order[j])
  {
    forall j | 0 <= j < |d.order| ensures Found(clu, SeenAfter(d.order, Shorts(d), clu, map[]), d.order[j]) {
      ChildSeen(d, clu, j);
    }
  }

  lemma PlainMissed(d: Node, clu: ClusterMap) returns (i: nat)
    requires TreeOk(d) && DirOk(d) && ClustersOk(clu) && !LongNamed(d)
    ensures i < |d.order| && d.order[i].name !in SeenAfter(d.order, Shorts(d), clu, map[])
    ensures !AllLossy(d.order, d.height)
  {
    hide Lossy, Storable, AllLossy, SeenAfter;
    i :| 0 <= i < |d.order| && !Lossy(d.order[i].name);
    AllLossyAt(d.order, d.height, i);
    PlainNotSeen(d, clu, i);
  }

  /** A directory with a child that has no long-name entry does not pass. */
  lemma PlainFails(w: View, v: Visit, prefix: Name)
    requires Sound(w) && v in Walk(w.root, null) && Yields(w, v) && !LongNamed(v.dir)
    ensures TreeOk(v.dir)
    ensures !Passes(WalkOf(w, v.dir, prefix)) && !AllLossy(v.dir.order, v.dir.height)
  {
    hide CheckNodes, Yields, LongNamed, Lossy, SeenAfter, AllLossy, WalkOf;
    WalkStarts(w, v, prefix);
    var i := PlainMissed(v.dir, w.clu);
    ProblemsGrow(w.img, w.g, v.dir.order, v.dir.height, SeenAfter(v.dir.order, Shorts(v.dir), w.clu, map[]),
                 Report(|v.dir.order|, []), prefix, w.fuel);
  }

  lemma VisitOk(root: Node, v: Visit)
    requires TreeOk(root) && root.isDir && v in Walk(root, null)
    ensures TreeOk(v.dir)
  {
    WalkClosed(root, null, v);
  }

  lemma ChildVisited(root: Node, v: Visit, j: nat)
    requires TreeOk(root) && root.isDir && v in Walk(root, null) && j < |v.dir.order| && v.dir.order[j].isDir
    ensures Visit(v.dir.order[j], v.dir) in Walk(root, null)
  {
    WalkClosed(root, null, v);
  }

  /** A readable directory passes exactly when everything below it took the long-name path. */
  lemma {:induction false} DirVerdict(w: View, v: Visit, prefix: Name)
    requires Readable(w) && v in Walk(w.root, null)
    ensures TreeOk(v.dir) && Settled(WalkOf(w, v.dir, prefix), v.dir)
    decreases v.dir.height, 1
  {
    VisitOk(w.root, v);
    if LongNamed(v.dir) {
      ChildrenSettled(w, v, 0, prefix);
      SettledByChildren(w, v, prefix);
    } else {
      PlainFails(w, v, prefix);
    }
  }

  /** The children of d from index k on came out as they should. */
  ghost predicate SettledFrom(w: View, d: Node, k: nat, prefix: Name)
    requires TreeOk(d) && k <= |d.order|
    decreases |d.order| - k
  {
    k == |d.order|
    || ((d.order[k].isDir ==> Settled(WalkOf(w, d.order[k], prefix + d.order[k].name + SLASH), d.order[k]))
        && SettledFrom(w, d, k + 1, prefix))
  }

  lemma {:induction false} ChildrenSettled(w: View, v: Visit, k: nat, prefix: Name)
    requires Readable(w) && v in Walk(w.root, null) && TreeOk(v.dir) && k <= |v.dir.order|
    ensures SettledFrom(w, v.dir, k, prefix)
    decreases v.dir.height, 0, |v.dir.order| - k
  {
    if k < |v.dir.order| {
      var n := v.dir.order[k];
      if n.isDir {
        ChildVisited(w.root, v, k);
        DirVerdict(w, Visit(n, v.dir), prefix + n.name + SLASH);
      }
      ChildrenSettled(w, v, k + 1, prefix);
    }
  }

  lemma {:induction false} SettledFromAt(w: View, d: Node, k: nat, j: nat, prefix: Name)
    requires TreeOk(d) && k <= j < |d.order| && d.order[j].isDir && SettledFrom(w, d, k, prefix)
    ensures Settled(Inner(w, d.order, d.height, prefix)[j], d.order[j])
    decreases j - k
  {
    if k < j { SettledFromAt(w, d, k + 1, j, prefix); }
  }

  lemma SettledByChildren(w: View, v: Visit, prefix: Name)
    requires Readable(w) && v in Walk(w.root, null) && TreeOk(v.dir) && SettledFrom(w, v.dir, 0, prefix)
    requires LongNamed(v.dir)
    ensures Settled(WalkOf(w, v.dir, prefix), v.dir)
  {
    var rs := Inner(w, v.dir.order, v.dir.height, prefix);
    forall j | 0 <= j < |v.dir.order| && v.dir.order[j].isDir ensures Settled(rs[j], v.dir.order[j]) {
      SettledFromAt(w, v.dir, 0, j, prefix);
    }
    AddUpVerdict(v.dir.order, v.dir.height, rs, Report(|v.dir.order|, []));
    WalkAddsUp(w, v, prefix);
  }

  // ---------------------------------------------------------------- reading the image of a plan

  /** Enough links to follow any chain the volume can hold. */
  predicate Enough(p: Plan, fuel: nat) { fuel >= p.vol.clusters + 2 }

  lemma RunOfCell(p: Plan, i: nat)
    requires PlanOk(p) && p.vol.FatFits() && i < |PlanCells(p)| && PlanNeeds(p)[i] > 0
    ensures var s, n := Start(PlanNeeds(p), i), PlanNeeds(p)[i];
            && s + n <= p.vol.clusters + 2
            && Reads(PlanImage(p), p.vol.Data().Offset(s), Contents(p.vol, PlanCells(p)[i], p.root, p.clu))
            && RunInImage(p.vol, PlanImage(p), s, n)
  {
    var x, ns := PlanBody(p), PlanNeeds(p);
    ContentsAt(p.vol, PlanCells(p), p.root, p.clu, i);
    DataReads(p.vol, x, i);
    assert IsRun(p.fat, Start(ns, i), ns[i]);
    RunReads(p.vol, x, Start(ns, i), ns[i]);
  }

  lemma DirRead(p: Plan, v: Visit, fuel: nat)
    requires PlanOk(p) && p.vol.FatFits() && v in Walk(p.root, null) && Enough(p, fuel)
    ensures DirOk(v.dir)
    ensures DirStream(PlanImage(p), BpbOf(p.vol), ClusterOf(p.clu, v.dir), fuel)
         == Some(FillAll(DirSlots(v, p.vol.tag), p.root, p.clu))
  {
    hide PlanOk, DirStream, DirSlots, SlotsLive, PlanImage, Need, Reads, RunInImage;
    var s, n := DirRun(p, v, fuel);
    DirSlotsLive(v, p.vol.tag);
    var slots := DirSlots(v, p.vol.tag);
    LiveFilled(slots, p.root, p.clu);
    BlobStream(p, v, s, n, FillAll(slots, p.root, p.clu), PlanImage(p), fuel);
  }

  /**
   * In the listing of a directory read from the image stands, for every child, an entry with its short name,
   * attribute, size, time stamps and the cluster its run starts at.
   */
  lemma ChildListed(p: Plan, v: Visit, j: nat, fuel: nat) returns (k: nat)
    requires PlanOk(p) && p.vol.FatFits() && v in Walk(p.root, null) && Enough(p, fuel) && j < |v.dir.order|
    ensures var es := DirStream(PlanImage(p), BpbOf(p.vol), ClusterOf(p.clu, v.dir), fuel);
            var n := v.dir.order[j];
            && es.Some? && k < |es.value|
            && Fields(es.value[k], Raw(Shorts(v.dir)[j]), if n.isDir then 0x10 else 0, ClusterOf(p.clu, n),
                      if n.isDir then 0 else |n.data|, n.time, n.date)
  {
    hide PlanOk, DirStream, Image, Fields, DirSlots, FillAll, Raw, DirOk;
    DirRead(p, v, fuel);
    PlanTag(p);
    k := ChildInDir(v, p.vol.tag, p.root, p.clu, j);
  }

  lemma PlanTag(p: Plan)
    requires PlanOk(p)
    ensures TagOk(p.vol.tag) && ClustersOk(p.clu)
  {
  }

  /**
   * From a directory below the root, "." leads back to its own listing, and ".." to cluster 0 if it lies in the
   * root, and else to where the run of the directory above starts.
   */
  lemma DotsLead(p: Plan, v: Visit, fuel: nat)
    requires PlanOk(p) && p.vol.FatFits() && v in Walk(p.root, null) && Enough(p, fuel) && v.parent != null
    ensures var es := DirStream(PlanImage(p), BpbOf(p.vol), ClusterOf(p.clu, v.dir), fuel);
            && es.Some? && |es.value| >= 2
            && es.value[0][..11] == [0x2E] + Repeat(0x20, 10) && es.value[1][..11] == [0x2E, 0x2E] + Repeat(0x20, 9)
            && es.value[0][11] == es.value[1][11] == 0x10
            && DirStream(PlanImage(p), BpbOf(p.vol), First(es.value[0]), fuel) == es
            && First(es.value[1]) == if v.parent == p.root then 0 else ClusterOf(p.clu, v.parent)
  {
    hide PlanOk, DirStream, Image, DirSlots, FillAll, First, DirOk;
    DirRead(p, v, fuel);
    PlanTag(p);
    DotsAhead(v, p.vol.tag, p.root, p.clu);
  }

  lemma LiveFilled(ss: seq<Slot>, root: Node, clu: ClusterMap)
    requires ClustersOk(clu) && SlotsLive(ss)
    ensures Live(FillAll(ss, root, clu))
  {
  }

  /** Where the image holds a directory's entries. */
  lemma DirRun(p: Plan, v: Visit, fuel: nat) returns (s: nat, n: nat)
    requires PlanOk(p) && p.vol.FatFits() && v in Walk(p.root, null) && Enough(p, fuel)
    ensures DirOk(v.dir) && VolOk(p.vol) && ClustersOk(p.clu)
    ensures s == ClusterOf(p.clu, v.dir) >= FIRST_CLUSTER && n == Need(p.vol, DirCell(v)) <= fuel
    ensures s + n <= p.vol.clusters + 2
    ensures Reads(PlanImage(p), p.vol.Data().Offset(s), DirBlob(p.vol, v, p.root, p.clu))
    ensures RunInImage(p.vol, PlanImage(p), s, n)
  {
    hide DirSlots, RunInImage, Reads, Image;
    WalksOk(p.root);
    var i := VisitIndex(p, v);
    RunOfCell(p, i);
    s, n := Start(PlanNeeds(p), i), PlanNeeds(p)[i];
  }

  lemma BlobStream(p: Plan, v: Visit, s: nat, n: nat, es: seq<Entry>, img: seq<byte>, fuel: nat)
    requires VolOk(p.vol) && DirOk(v.dir) && ClustersOk(p.clu) && fuel >= n && s >= FIRST_CLUSTER
    requires es == FillAll(DirSlots(v, p.vol.tag), p.root, p.clu) && Live(es)
    requires n == Need(p.vol, DirCell(v)) && s + n <= p.vol.clusters + 2
    requires Reads(img, p.vol.Data().Offset(s), DirBlob(p.vol, v, p.root, p.clu)) && RunInImage(p.vol, img, s, n)
    ensures DirStream(img, BpbOf(p.vol), s, fuel) == Some(es)
  {
    StreamOfRun(p.vol, img, s, n, es, fuel);
  }

  lemma BootIsRead(p: Plan)
    requires PlanOk(p)
    ensures |PlanImage(p)| >= SECTOR
    ensures ParseBoot(PlanImage(p)[..SECTOR]) == BpbOf(p.vol)
  {
    HeadReads(p.vol, PlanBody(p));
    BootSectorParses(p.vol);
    assert PlanImage(p)[..SECTOR] == PlanImage(p)[0..SECTOR] == BootSector(p.vol);
  }

  lemma ReadsEmpty(v: Vol, img: seq<byte>, fuel: nat)
    requires v.spc >= 1 && fuel >= 1 && v.DataStart() * SECTOR < |img| && img[v.DataStart() * SECTOR] == 0
    ensures DirStream(img, BpbOf(v), FIRST_CLUSTER, fuel) == Some([])
  {
    var off, cb := v.DataStart() * SECTOR, v.Data().ClusterBytes();
    var blob := ReadUpTo(img, off, cb);
    assert (RESERVED + NUM_FATS * v.fatSectors + (FIRST_CLUSTER - 2) * v.spc) * SECTOR == off;
    assert ClusterBlob(img, BpbOf(v), FIRST_CLUSTER) == Some(blob);
    assert blob != [] && blob[0] == 0;
    assert ScanBlob(blob) == Some(Scan([], true));
  }

  /** With a FAT that is too short and cluster 128 * fatSectors unused, the root directory reads as empty. */
  lemma RootClobbered(p: Plan, fuel: nat)
    requires PlanOk(p) && !p.vol.FatFits() && NextFree(PlanBody(p)) <= 128 * p.vol.fatSectors && fuel >= 1
    ensures DirStream(PlanImage(p), BpbOf(p.vol), FIRST_CLUSTER, fuel) == Some([])
  {
    DataClobbered(p.vol, PlanBody(p));
    assert p.fat[128 * p.vol.fatSectors] == 0;
    ReadsEmpty(p.vol, PlanImage(p), fuel);
  }

  /** Against an empty listing, a tree passes only when it has nothing below its root. */
  lemma EmptyListing(w: View)
    requires TreeOk(w.root) && DirStream(w.img, w.g, ClusterOf(w.clu, w.root), w.fuel) == Some([])
    ensures Passes(WalkOf(w, w.root, [])) <==> w.root.order == []
    ensures w.root.order == [] ==> WalkOf(w, w.root, []) == Some(Report(0, []))
  {
    var seen: map<Name, Entry> := map[];
    assert WalkOf(w, w.root, [])
        == CheckNodes(w.img, w.g, w.root.order, w.root.height, seen, Report(0, []), [], w.fuel) by {
      var es: seq<Entry> := [];
      assert Steps(START, es, []) == START;
    }
    if w.root.order != [] {
      assert w.root.order[0].name !in seen;
      ProblemsGrow(w.img, w.g, w.root.order, w.root.height, seen, Report(0, []), [], w.fuel);
    }
  }

  ghost function ViewOf(p: Plan, fuel: nat): View
    requires PlanOk(p)
  {
    View(PlanImage(p), BpbOf(p.vol), p.root, p.vol.tag, p.clu, fuel)
  }

  lemma ViewSound(p: Plan, fuel: nat)
    requires PlanOk(p)
    ensures Sound(ViewOf(p, fuel))
  {
    hide DistinctOwners, CellsOk, Laid, PlanImage;
    WalksOk(p.root);
  }

  lemma FitsVerdict(p: Plan, fuel: nat)
    requires PlanOk(p) && Enough(p, fuel) && p.vol.FatFits()
    ensures Settled(WalkOf(ViewOf(p, fuel), p.root, []), p.root)
  {
    var w := ViewOf(p, fuel);
    ViewSound(p, fuel);
    forall v | v in Walk(p.root, null) ensures Yields(w, v) {
      DirRead(p, v, fuel);
    }
    RootAtTwo(p);
    DirVerdict(w, Visit(p.root, null), []);
  }

  lemma ShortFatVerdict(p: Plan, fuel: nat)
    requires PlanOk(p) && Enough(p, fuel) && !p.vol.FatFits() && NextFree(PlanBody(p)) <= 128 * p.vol.fatSectors
    ensures Passes(WalkOf(ViewOf(p, fuel), p.root, [])) <==> p.root.order == []
    ensures p.root.order == [] ==> WalkOf(ViewOf(p, fuel), p.root, []) == Some(Report(0, []))
  {
    RootClobbered(p, fuel);
    RootAtTwo(p);
    EmptyListing(ViewOf(p, fuel));
  }

  lemma VerifyIsWalk(p: Plan, fuel: nat)
    requires PlanOk(p)
    ensures Verify(PlanImage(p), p.root, fuel) == WalkOf(ViewOf(p, fuel), p.root, [])
  {
    BootIsRead(p);
    RootAtTwo(p);
  }

  lemma RunInside(v: Vol, s: nat, n: nat)
    requires VolOk(v) && s >= FIRST_CLUSTER && s + n <= v.clusters + 2
    ensures v.Data().Offset(s) + n * v.Data().ClusterBytes() <= v.size
  {
    VolBounds(v);
    OffsetStep(v.Data(), s, n);
    OffsetMono(v.Data(), s + n, v.clusters + 2);
  }

  /** The free count in the FSInfo sector is the number of zero entries of the FAT. */
  lemma FreeCountIsExact(p: Plan)
    requires PlanOk(p)
    ensures |PlanImage(p)| >= 2 * SECTOR
    ensures Get32(PlanImage(p)[SECTOR..2 * SECTOR], 488) == FreeEntries(p.fat)
    ensures Get32(PlanImage(p)[SECTOR..2 * SECTOR], 492) == NextFree(PlanBody(p))
  {
    HeadReads(p.vol, PlanBody(p));
    InfoSectorCounts(p.vol, NextFree(PlanBody(p)));
    FreeCount(p.fat, PlanNeeds(p));
  }
}
