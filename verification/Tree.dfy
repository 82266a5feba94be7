/** The directory tree to be stored. Only a node's first cluster changes once the tree is built. */
module Tree {
  import opened Bytes
  import opened ShortNames
  import opened LongNames

  class Node {
    const name: Name
    const isDir: bool
    const data: seq<byte>
    const order: seq<Node>
    const time: nat
    const date: nat
    const height: nat
    var cluster: nat

    constructor File(name: Name, data: seq<byte>, time: nat, date: nat)
      ensures this.name == name && !isDir && this.data == data && order == []
      ensures this.time == time && this.date == date && cluster == 0 && height == 0
    {
      this.name, isDir, this.data, order := name, false, data, [];
      this.time, this.date, height, cluster := time, date, 0, 0;
    }

    constructor Dir(name: Name, order: seq<Node>, time: nat, date: nat)
      ensures this.name == name && isDir && data == [] && this.order == order
      ensures this.time == time && this.date == date && cluster == 0
      ensures forall i :: 0 <= i < |order| ==> order[i].height < height
    {
      this.name, isDir, data, this.order := name, true, [], order;
      this.time, this.date, height, cluster := time, date, Above(order), 0;
    }
  }

  function Above(order: seq<Node>): (h: nat)
    ensures forall i :: 0 <= i < |order| ==> order[i].height < h
  {
    if order == [] then 1
    else
      var h := Above(order[1..]);
      if order[0].height < h then h else order[0].height + 1
  }

  /** The parts of a node that struct packing and the name encoders put limits on. */
  predicate Storable(n: Node)
  {
    && IsBmp(n.name) && |n.name| <= MAX_UNITS
    && |n.data| < 0x1_0000_0000
    && n.time < 0x1_0000 && n.date < 0x1_0000
    && |n.order| <= MAX_TAIL
    && (!n.isDir ==> n.order == [])
  }

  /** No two names in one directory are the same. */
  ghost predicate DistinctNames(nodes: seq<Node>)
  {
    forall i, j :: 0 <= i < j < |nodes| ==> nodes[i].name != nodes[j].name
  }

  ghost predicate TreeOk(n: Node)
    decreases n.height
  {
    && Storable(n)
    && DistinctNames(n.order)
    && forall i :: 0 <= i < |n.order| ==> n.order[i].height < n.height && TreeOk(n.order[i])
  }

  ghost predicate ForestOk(nodes: seq<Node>, h: nat)
  {
    forall i :: 0 <= i < |nodes| ==> nodes[i].height < h && TreeOk(nodes[i])
  }

  // ---------------------------------------------------------------- walking

  /** A directory as the walk reaches it, with its parent (null for the root). */
  datatype Visit = Visit(dir: Node, parent: Node?)

  /** The directories of a tree, each before its own subdirectories. */
  function Walk(d: Node, parent: Node?): (vs: seq<Visit>)
    requires TreeOk(d)
    decreases d.height, |d.order| + 1
  {
    [Visit(d, parent)] + WalkAll(d.order, d, d.height)
  }

  function WalkAll(nodes: seq<Node>, parent: Node, ghost h: nat): (vs: seq<Visit>)
    requires ForestOk(nodes, h)
    decreases h, |nodes|
  {
    if nodes == [] then []
    else (if nodes[0].isDir then Walk(nodes[0], parent) else []) + WalkAll(nodes[1..], parent, h)
  }

  function NodeCount(n: Node): nat
    requires TreeOk(n)
    decreases n.height, |n.order| + 1
  {
    1 + CountAll(n.order, n.height)
  }

  function CountAll(nodes: seq<Node>, ghost h: nat): nat
    requires ForestOk(nodes, h)
    decreases h, |nodes|
  {
    if nodes == [] then 0 else NodeCount(nodes[0]) + CountAll(nodes[1..], h)
  }

  /** The given nodes and every node below them take the long-name path. */
  ghost predicate AllLossy(nodes: seq<Node>, h: nat)
    requires ForestOk(nodes, h)
    decreases h, |nodes|
  {
    nodes == [] || (Lossy(nodes[0].name) && AllLossy(nodes[0].order, nodes[0].height) && AllLossy(nodes[1..], h))
  }

  lemma {:induction false} AllLossyAt(nodes: seq<Node>, h: nat, i: nat)
    requires ForestOk(nodes, h) && i < |nodes|
    ensures AllLossy(nodes, h) ==> Lossy(nodes[i].name)
    decreases |nodes|
  {
    hide TreeOk, Lossy;
    if AllLossy(nodes, h) && i > 0 { AllLossyAt(nodes[1..], h, i - 1); }
  }

  lemma {:induction false} WalkHasChildren(nodes: seq<Node>, parent: Node, h: nat, i: nat)
    requires ForestOk(nodes, h) && i < |nodes| && nodes[i].isDir
    ensures forall v :: v in Walk(nodes[i], parent) ==> v in WalkAll(nodes, parent, h)
    decreases |nodes|
  {
    if i > 0 { WalkHasChildren(nodes[1..], parent, h, i - 1); }
  }
}
