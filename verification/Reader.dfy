/** The strict reader of FAT32 images. None stands for a read that raises or never ends. */
module Reader {
  import opened Bytes
  import opened Geometry
  import opened ShortNames
  import opened LongNames
  import opened Tree
  import opened Directory
  import opened Volume
  import opened Numbers
  import opened Wrappers

  // ---------------------------------------------------------------- clusters and chains

  /** Up to n bytes from `off`; fewer at the end of the file. */
  function ReadUpTo(img: seq<byte>, off: nat, n: nat): seq<byte>
  {
    if off >= |img| then [] else if off + n >= |img| then img[off..] else img[off..off + n]
  }

  function FatEntry(img: seq<byte>, g: Bpb, c: nat): Option<nat>
  {
    var off := g.reserved * g.bps + 4 * c;
    if off + 4 > |img| then None else Some(Get32(img, off) % 0x1000_0000)
  }

  function ClusterBlob(img: seq<byte>, g: Bpb, c: nat): Option<seq<byte>>
  {
    var off := (g.reserved + g.nfats * g.fatsz + (c - 2) * g.spc) * g.bps;
    if off < 0 then None else Some(ReadUpTo(img, off, g.spc * g.bps))
  }

  /** Entries up to the first free one; `ended` tells whether there was one. */
  datatype Scan = Scan(es: seq<Entry>, ended: bool)

  function ScanBlob(b: seq<byte>): Option<Scan>
    decreases |b|
  {
    if b == [] then Some(Scan([], false))
    else if b[0] == 0 then Some(Scan([], true))
    else if |b| < 32 then None
    else PrependScan([b[..32]], ScanBlob(b[32..]))
  }

  function PrependScan(es: seq<Entry>, rest: Option<Scan>): Option<Scan>
  {
    if rest.None? then None else Some(Scan(es + rest.value.es, rest.value.ended))
  }

  lemma PrependScanTwice(a: seq<Entry>, b: seq<Entry>, rest: Option<Scan>)
    ensures PrependScan(a, PrependScan(b, rest)) == PrependScan(a + b, rest)
    ensures PrependScan([], rest) == rest
    ensures forall t :: PrependScan(a, Some(Scan([], t))) == Some(Scan(a, t))
  {
    if rest.Some? {
      assert a + (b + rest.value.es) == a + b + rest.value.es;
      assert [] + rest.value.es == rest.value.es;
    }
    assert a + [] == a;
  }

  /** The live entries of the directory whose chain starts at c, following at most `fuel` links. */
  function DirStream(img: seq<byte>, g: Bpb, c: nat, fuel: nat): Option<seq<Entry>>
    decreases fuel
  {
    if c == 0 || c >= 0x0FFF_FFF8 then Some([])
    else if fuel == 0 then None
    else
      var blob := ClusterBlob(img, g, c);
      var scan := if blob.None? then None else ScanBlob(blob.value);
      if scan.None? then None
      else if scan.value.ended then Some(scan.value.es)
      else
        var next := FatEntry(img, g, c);
        if next.None? then None else Prepend(scan.value.es, DirStream(img, g, next.value, fuel - 1))
  }

  function Prepend(es: seq<Entry>, rest: Option<seq<Entry>>): Option<seq<Entry>>
  {
    if rest.None? then None else Some(es + rest.value)
  }

  lemma PrependTwice(a: seq<Entry>, b: seq<Entry>, rest: Option<seq<Entry>>)
    ensures Prepend(a, Prepend(b, rest)) == Prepend(a + b, rest)
    ensures Prepend([], rest) == rest
    ensures Prepend(a, Some(b)) == Some(a + b)
  {
    if rest.Some? {
      assert a + (b + rest.value) == a + b + rest.value;
      assert [] + rest.value == rest.value;
    }
  }

  // ---------------------------------------------------------------- one directory

  datatype Problem =
    | WrongCount(path: Name, entries: nat, expected: nat)
    | NotFound(path: Name)
    | WrongSize(path: Name, onCard: nat, onDisk: nat)

  datatype Report = Report(checked: nat, problems: seq<Problem>)

  /** The state while a directory's entries are gone through. */
  datatype State = State(seen: map<Name, Entry>, lfn: seq<Entry>, report: Report)

  function AsciiChar(b: byte): unit { var c: int := b; if c < 128 then c else 0xFFFD }

  /** Decoding bytes as ASCII, U+FFFD for anything else. */
  function AsciiDecode(b: seq<byte>): (s: Name)
    ensures |s| == |b|
  {
    seq(|b|, i requires 0 <= i < |b| => AsciiChar(b[i]))
  }

  predicate IsLabel(e: Entry) { e[11] / 8 % 2 == 1 && e[11] / 16 % 2 == 0 }

  predicate IsDotOrDeleted(e: Entry) { e[0] == 0x2E || e[0] == 0xE5 }

  function LfnProblems(lfn: seq<Entry>, prefix: Name): seq<Problem>
  {
    var name := DecodeName(lfn);
    if lfn != [] && |lfn| != CeilDiv(|name|, 13)
    then [WrongCount(prefix + name, |lfn|, CeilDiv(|name|, 13))] else []
  }

  /** The name an entry is known by: its long name, or its 11 raw bytes when it has none. */
  function KeyFor(e: Entry, lfn: seq<Entry>): Name
  {
    var name := if lfn == [] then [] else DecodeName(lfn);
    if name != [] then name else AsciiDecode(e[..11])
  }

  function Step(s: State, e: Entry, prefix: Name): State
  {
    if e[11] == ATTR_LFN then s.(lfn := s.lfn + [e])
    else if IsLabel(e) || IsDotOrDeleted(e) then s.(lfn := [])
    else State(s.seen[KeyFor(e, s.lfn) := e], [],
               Report(s.report.checked + 1, s.report.problems + LfnProblems(s.lfn, prefix)))
  }

  function Steps(s: State, es: seq<Entry>, prefix: Name): State
    decreases |es|
  {
    if es == [] then s else Steps(Step(s, es[0], prefix), es[1..], prefix)
  }

  const START := State(map[], [], Report(0, []))

  /** The high four bits of a FAT entry do not count. */
  lemma HighBitsIgnored(img: seq<byte>, g: Bpb, c: nat, high: nat, low: nat)
    requires g.reserved * g.bps + 4 * c + 4 <= |img| && low < 0x1000_0000
    requires Get32(img, g.reserved * g.bps + 4 * c) == high * 0x1000_0000 + low
    ensures FatEntry(img, g, c) == Some(low)
  {
    RemainderOf(high * 0x1000_0000 + low, 0x1000_0000, high, low);
  }

  /** Labels, dot entries and deleted ones are passed over; any other short entry is seen and counted. */
  lemma PassedOver(s: State, e: Entry, prefix: Name)
    requires e[11] != 0x0F
    ensures if IsLabel(e) || e[0] == 0x2E || e[0] == 0xE5 then Step(s, e, prefix) == s.(lfn := [])
            else
              var t := Step(s, e, prefix);
              t.report.checked == s.report.checked + 1 && t.lfn == [] && KeyFor(e, s.lfn) in t.seen
  {
  }

  /** A long name is reported exactly unless its entries are as many as its characters need, 13 to an entry. */
  lemma CountedStrictly(lfn: seq<Entry>, prefix: Name)
    requires lfn != []
    ensures LfnProblems(lfn, prefix) == [] <==> 13 * |lfn| - 13 < |DecodeName(lfn)| <= 13 * |lfn|
  {
  }

  /** A label has the volume bit, and not the directory bit, in its attribute. */
  lemma LabelIs(e: Entry)
    ensures IsLabel(e) <==> Digit(e[11], 3) == 1 && Digit(e[11], 4) == 0
  {
    hide Digit, Pow2;
    Powers();
    DigitAt(e[11], 3);
    DigitAt(e[11], 4);
  }

  // ---------------------------------------------------------------- the whole tree

  const SLASH: Name := [0x2F]

  function WalkDir(img: seq<byte>, g: Bpb, d: Node, c: nat, prefix: Name, fuel: nat): Option<Report>
    requires TreeOk(d)
    decreases d.height, |d.order| + 1
  {
    var es := DirStream(img, g, c, fuel);
    if es.None? then None
    else
      var s := Steps(START, es.value, prefix);
      CheckNodes(img, g, d.order, d.height, s.seen, s.report, prefix, fuel)
  }

  /** Look the nodes up by name, in order, continuing into directories. */
  function CheckNodes(img: seq<byte>, g: Bpb, nodes: seq<Node>, ghost h: nat, seen: map<Name, Entry>, r: Report,
                      prefix: Name, fuel: nat): Option<Report>
    requires ForestOk(nodes, h)
    decreases h, |nodes|
  {
    if nodes == [] then Some(r)
    else
      var r' := CheckNode(img, g, nodes[0], seen, r, prefix, fuel);
      if r'.None? then None else CheckNodes(img, g, nodes[1..], h, seen, r'.value, prefix, fuel)
  }

  function CheckNode(img: seq<byte>, g: Bpb, n: Node, seen: map<Name, Entry>, r: Report,
                     prefix: Name, fuel: nat): Option<Report>
    requires TreeOk(n)
    decreases n.height, |n.order| + 2
  {
    if n.name !in seen then Some(r.(problems := r.problems + [NotFound(prefix + n.name)]))
    else if n.isDir then
      var inner := WalkDir(img, g, n, First(seen[n.name]), prefix + n.name + SLASH, fuel);
      if inner.None? then None
      else Some(Report(r.checked + inner.value.checked, r.problems + inner.value.problems))
    else
      var size := Get32(seen[n.name], 28);
      if size != |n.data|
      then Some(r.(problems := r.problems + [WrongSize(prefix + n.name, size, |n.data|)])) else Some(r)
  }

  /** A file that is found is reported exactly when the size in its entry is not its own; one not found always. */
  lemma FileChecked(img: seq<byte>, g: Bpb, n: Node, seen: map<Name, Entry>, r: Report, prefix: Name, fuel: nat)
    requires TreeOk(n) && !n.isDir
    ensures var r' := CheckNode(img, g, n, seen, r, prefix, fuel);
            && r'.Some? && r'.value.checked == r.checked && r.problems <= r'.value.problems
            && (r'.value.problems == r.problems <==> n.name in seen && Get32(seen[n.name], 28) == |n.data|)
  {
    hide Get32;
  }

  function Verify(img: seq<byte>, root: Node, fuel: nat): Option<Report>
    requires TreeOk(root)
  {
    if |img| < SECTOR then None
    else
      var g := ParseBoot(img[..SECTOR]);
      WalkDir(img, g, root, g.rootCluster, [], fuel)
  }

  // ---------------------------------------------------------------- the program's loops

  method ScanCluster(blob: seq<byte>) returns (r: Option<Scan>)
    ensures r == ScanBlob(blob)
  {
    var out: seq<Entry>, b := [], blob;
    PrependScanTwice([], [], ScanBlob(blob));
    while b != []
      invariant ScanBlob(blob) == PrependScan(out, ScanBlob(b))
      decreases |b|
    {
      PrependScanTwice(out, [], None);
      if b[0] == 0 { return Some(Scan(out, true)); }
      if |b| < 32 { return None; }
      PrependScanTwice(out, [b[..32]], ScanBlob(b[32..]));
      out := out + [b[..32]];
      b := b[32..];
    }
    PrependScanTwice(out, [], None);
    return Some(Scan(out, false));
  }

  method ReadEntries(img: seq<byte>, g: Bpb, cluster: nat, fuel: nat) returns (es: Option<seq<Entry>>)
    ensures es == DirStream(img, g, cluster, fuel)
  {
    var c: nat, left: nat := cluster, fuel;
    var out: seq<Entry> := [];
    ghost var all := DirStream(img, g, cluster, fuel);
    PrependTwice([], [], all);
    while c != 0 && c < 0x0FFF_FFF8
      invariant left <= fuel
      invariant all == Prepend(out, DirStream(img, g, c, left))
      decreases left
    {
      if left == 0 { return None; }
      var blob := ClusterBlob(img, g, c);
      if blob.None? { return None; }
      var scan := ScanCluster(blob.value);
      if scan.None? { return None; }
      PrependTwice(out, scan.value.es, None);
      if scan.value.ended { return Some(out + scan.value.es); }
      var next := FatEntry(img, g, c);
      if next.None? { return None; }
      PrependTwice(out, scan.value.es, DirStream(img, g, next.value, left - 1));
      out := out + scan.value.es;
      c, left := next.value, left - 1;
    }
    PrependTwice(out, [], None);
    assert out + [] == out;
    return Some(out);
  }

  method VerifyDir(img: seq<byte>, g: Bpb, d: Node, c: nat, prefix: Name, fuel: nat) returns (r: Option<Report>)
    requires TreeOk(d)
    ensures r == WalkDir(img, g, d, c, prefix, fuel)
    decreases d.height
  {
    var es := ReadEntries(img, g, c, fuel);
    if es.None? { return None; }
    var s := START;
    for i := 0 to |es.value|
      invariant Steps(s, es.value[i..], prefix) == Steps(START, es.value, prefix)
    {
      assert es.value[i..][1..] == es.value[i + 1..];
      s := Step(s, es.value[i], prefix);
    }
    r := Some(s.report);
    for j := 0 to |d.order|
      invariant r.Some?
      invariant CheckNodes(img, g, d.order[j..], d.height, s.seen, r.value, prefix, fuel)
             == WalkDir(img, g, d, c, prefix, fuel)
    {
      var n := d.order[j];
      assert d.order[j..][1..] == d.order[j + 1..];
      if n.name !in s.seen {
        r := Some(r.value.(problems := r.value.problems + [NotFound(prefix + n.name)]));
      } else if n.isDir {
        var inner := VerifyDir(img, g, n, First(s.seen[n.name]), prefix + n.name + SLASH, fuel);
        if inner.None? { return None; }
        r := Some(Report(r.value.checked + inner.value.checked, r.value.problems + inner.value.problems));
      } else {
        var size := Get32(s.seen[n.name], 28);
        if size != |n.data| {
          r := Some(r.value.(problems := r.value.problems + [WrongSize(prefix + n.name, size, |n.data|)]));
        }
      }
    }
  }

  method VerifyImage(img: seq<byte>, root: Node, fuel: nat) returns (r: Option<Report>)
    requires TreeOk(root)
    ensures r == Verify(img, root, fuel)
  {
    if |img| < SECTOR { return None; }
    var g := ParseBoot(img[..SECTOR]);
    r := VerifyDir(img, g, root, g.rootCluster, [], fuel);
  }
}
