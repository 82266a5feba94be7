/** Reading chains back from a finished image: directories yield their entries, files their bytes. */
module ChainReads {
  import opened Bytes
  import opened Geometry
  import opened ShortNames
  import opened LongNames
  import opened Tree
  import opened Directory
  import opened Allocator
  import opened Runs
  import opened Volume
  import opened Layout
  import opened Reader
  import opened Wrappers

  /** What the reader learns about a volume from its boot sector. */
  function BpbOf(v: Vol): Bpb { Bpb(SECTOR, v.spc, RESERVED, NUM_FATS, v.fatSectors, FIRST_CLUSTER) }

  predicate Live(es: seq<Entry>) { forall k :: 0 <= k < |es| ==> es[k][0] != 0 }

  lemma {:induction false} JoinConcat(a: seq<Entry>, b: seq<Entry>)
    ensures Join(a + b) == Join(a) + Join(b)
    decreases |a|
  {
    if a == [] {
      assert a + b == b;
    } else {
      assert (a + b)[1..] == a[1..] + b;
      JoinConcat(a[1..], b);
    }
  }

  lemma {:induction false} ScanJoined(es: seq<Entry>, pad: nat)
    requires Live(es)
    ensures ScanBlob(Join(es) + Zeros(pad)) == Some(Scan(es, pad > 0))
    decreases |es|
  {
    var b := Join(es) + Zeros(pad);
    if es == [] {
      assert b == Zeros(pad);
    } else {
      assert b[..32] == es[0];
      assert b[0] == es[0][0];
      assert b[32..] == Join(es[1..]) + Zeros(pad);
      ScanJoined(es[1..], pad);
      assert [es[0]] + es[1..] == es;
    }
  }

  // ---------------------------------------------------------------- one cluster

  lemma ClusterReads(v: Vol, img: seq<byte>, c: nat, data: seq<byte>)
    requires v.spc >= 1 && c >= FIRST_CLUSTER
    requires |data| == v.Data().ClusterBytes() && Reads(img, v.Data().Offset(c), data)
    ensures ClusterBlob(img, BpbOf(v), c) == Some(data)
  {
    var off := v.Data().Offset(c);
    assert (RESERVED + NUM_FATS * v.fatSectors + (c - 2) * v.spc) * SECTOR == off;
    assert ReadUpTo(img, off, |data|) == data by { assert off + |data| == |img| ==> img[off..] == data; }
  }

  /** A FAT entry that ends a chain, or names the next cluster. */
  predicate Links(e: Option<nat>, c: nat, last: bool)
  {
    e.Some? && if last then e.value >= 0x0FFF_FFF8 else e.value == c + 1
  }

  /** The FAT entries of a run, as the image holds them. */
  predicate RunInImage(v: Vol, img: seq<byte>, s: nat, n: nat)
  {
    forall c :: s <= c < s + n ==> Links(FatEntry(img, BpbOf(v), c), c, c == s + n - 1)
  }

  lemma RunReads(v: Vol, x: Body, s: nat, n: nat)
    requires BodyOk(v, x) && IsRun(x.fat, s, n) && s >= FIRST_CLUSTER && s + n <= 128 * v.fatSectors
    ensures RunInImage(v, Image(v, x), s, n)
  {
    hide FatEntry, Image;
    forall c | s <= c < s + n ensures Links(FatEntry(Image(v, x), BpbOf(v), c), c, c == s + n - 1) {
      LinkReads(v, x, c);
    }
  }

  lemma LinkReads(v: Vol, x: Body, c: nat)
    requires BodyOk(v, x) && c < |x.fat| && c < 128 * v.fatSectors && x.fat[c] < 0x1000_0000
    ensures FatEntry(Image(v, x), BpbOf(v), c) == Some(x.fat[c])
  {
    FatEntryReads(v, x, c);
    LinkValue(v, Image(v, x), c, x.fat[c]);
  }

  lemma LinkValue(v: Vol, img: seq<byte>, c: nat, w: nat)
    requires RESERVED * SECTOR + 4 * c + 4 <= |img| && w < 0x1000_0000
    requires Get32(img, RESERVED * SECTOR + 4 * c) == w
    ensures FatEntry(img, BpbOf(v), c) == Some(w)
  {
    assert w % 0x1000_0000 == w;
  }

  // ---------------------------------------------------------------- directories

  /** The entries, zero-filled to n clusters, lie in the image from cluster s on. */
  predicate Holds(v: Vol, img: seq<byte>, s: nat, n: nat, es: seq<Entry>)
  {
    && s >= FIRST_CLUSTER && 32 * |es| <= n * v.Data().ClusterBytes()
    && Reads(img, v.Data().Offset(s), Join(es) + Zeros(n * v.Data().ClusterBytes() - 32 * |es|))
  }

  lemma NothingHeld(v: Vol, img: seq<byte>, s: nat, es: seq<Entry>)
    requires Holds(v, img, s, 0, es)
    ensures es == []
  {
    assert 0 * v.Data().ClusterBytes() == 0;
  }

  /** The first cluster of a run either holds the last of the entries or is full of them. */
  lemma FirstOfRun(v: Vol, img: seq<byte>, s: nat, n: nat, es: seq<Entry>)
      returns (head: seq<Entry>, rest: seq<Entry>)
    requires v.spc >= 1 && n >= 1 && Live(es) && Holds(v, img, s, n, es)
    ensures var scan := ClusterBlob(img, BpbOf(v), s);
            && scan.Some? && es == head + rest && Live(rest)
            && (|es| < 16 * v.spc ==> ScanBlob(scan.value) == Some(Scan(es, true)))
            && (|es| >= 16 * v.spc ==>
                  ScanBlob(scan.value) == Some(Scan(head, false)) && Holds(v, img, s + 1, n - 1, rest))
  {
    hide FatEntry, ScanBlob, ClusterBlob, Join, Live;
    head, rest := es, [];
    LiveParts(es, 16 * v.spc);
    var k, cb := 16 * v.spc, v.Data().ClusterBytes();
    var total := n * cb;
    assert cb == 32 * k && total == cb + (n - 1) * cb;
    TailBytes(n, cb);
    var all := Join(es) + Zeros(total - 32 * |es|);
    ReadsPart(img, v.Data().Offset(s), all, 0, cb);
    ClusterReads(v, img, s, all[..cb]);
    if |es| < k {
      assert all[..cb] == Join(es) + Zeros(cb - 32 * |es|);
      ScanJoined(es, cb - 32 * |es|);
    } else {
      head, rest := es[..k], es[k..];
      FullCluster(es, k, total - 32 * |es|);
      ScanJoined(es[..k], 0);
      ReadsPart(img, v.Data().Offset(s), all, cb, total);
      OffsetStep(v.Data(), s, 1);
    }
  }

  lemma LiveParts(es: seq<Entry>, k: nat)
    requires Live(es)
    ensures Live([]) && (k <= |es| ==> Live(es[..k]) && Live(es[k..]))
  {
  }

  /** The first k of the entries fill 32k bytes; the others follow. */
  lemma FullCluster(es: seq<Entry>, k: nat, pad: nat)
    requires k <= |es|
    ensures var all := Join(es) + Zeros(pad);
            all[..32 * k] == Join(es[..k]) + Zeros(0) && all[32 * k..] == Join(es[k..]) + Zeros(pad)
  {
    hide Join, Zeros;
    JoinSplit(es, k);
    CutConcat(Join(es[..k]), Join(es[k..]), Zeros(pad));
  }

  lemma JoinSplit(es: seq<Entry>, k: nat)
    requires k <= |es|
    ensures Join(es) == Join(es[..k]) + Join(es[k..])
  {
    hide Join;
    assert es == es[..k] + es[k..];
    JoinConcat(es[..k], es[k..]);
  }

  lemma CutConcat(a: seq<byte>, b: seq<byte>, c: seq<byte>)
    ensures ((a + b) + c)[..|a|] == a + Zeros(0) && ((a + b) + c)[|a|..] == b + c
  {
    assert (a + b) + c == a + (b + c) && Zeros(0) == [];
  }

  lemma RunRest(v: Vol, img: seq<byte>, s: nat, n: nat)
    requires n >= 1 && RunInImage(v, img, s, n)
    ensures Links(FatEntry(img, BpbOf(v), s), s, n == 1)
    ensures RunInImage(v, img, s + 1, n - 1)
  {
    hide FatEntry;
  }

  lemma TailBytes(n: nat, cb: nat)
    requires n >= 1
    ensures (n - 1) * cb == n * cb - cb && (n - 1) * cb >= 0
  {
  }

  /** Following a directory's run yields exactly its entries. */
  lemma {:induction false} StreamOfRun(v: Vol, img: seq<byte>, s: nat, n: nat, es: seq<Entry>, fuel: nat)
    requires v.spc >= 1 && s >= FIRST_CLUSTER && n >= 1 && s + n < 0x0FFF_FFF8 && fuel >= n && Live(es)
    requires Holds(v, img, s, n, es) && RunInImage(v, img, s, n)
    ensures DirStream(img, BpbOf(v), s, fuel) == Some(es)
    decreases n
  {
    hide ClusterBlob, ScanBlob, FatEntry, Holds, Live, RunInImage;
    var head, rest := FirstOfRun(v, img, s, n, es);
    if |es| >= 16 * v.spc {
      RunRest(v, img, s, n);
      if n == 1 {
        NothingHeld(v, img, s + 1, rest);
        assert DirStream(img, BpbOf(v), FatEntry(img, BpbOf(v), s).value, fuel - 1) == Some([]);
      } else {
        StreamOfRun(v, img, s + 1, n - 1, rest, fuel - 1);
      }
      StreamStep(v, img, s, head, rest, fuel);
    }
  }

  lemma StreamStep(v: Vol, img: seq<byte>, s: nat, head: seq<Entry>, rest: seq<Entry>, fuel: nat)
    requires FIRST_CLUSTER <= s < 0x0FFF_FFF8 && fuel >= 1
    requires ClusterBlob(img, BpbOf(v), s).Some? && FatEntry(img, BpbOf(v), s).Some?
    requires ScanBlob(ClusterBlob(img, BpbOf(v), s).value) == Some(Scan(head, false))
    requires DirStream(img, BpbOf(v), FatEntry(img, BpbOf(v), s).value, fuel - 1) == Some(rest)
    ensures DirStream(img, BpbOf(v), s, fuel) == Some(head + rest)
  {
    hide ClusterBlob, ScanBlob, FatEntry;
  }

  // ---------------------------------------------------------------- files

  /** The bytes of the clusters of a chain, one after another. */
  function ChainBytes(img: seq<byte>, g: Bpb, c: nat, fuel: nat): Option<seq<byte>>
    decreases fuel
  {
    if c == 0 || c >= 0x0FFF_FFF8 then Some([])
    else if fuel == 0 then None
    else
      var blob, next := ClusterBlob(img, g, c), FatEntry(img, g, c);
      if blob.None? || next.None? then None
      else
        var rest := ChainBytes(img, g, next.value, fuel - 1);
        if rest.None? then None else Some(blob.value + rest.value)
  }

  /** Following a file's run yields its bytes first, although only one seek placed them. */
  lemma {:induction false} BytesOfRun(v: Vol, img: seq<byte>, s: nat, n: nat, data: seq<byte>, fuel: nat)
    requires v.spc >= 1 && s >= FIRST_CLUSTER && n >= 1 && s + n < 0x0FFF_FFF8 && fuel >= n
    requires v.Data().Offset(s) + n * v.Data().ClusterBytes() <= |img|
    requires |data| <= n * v.Data().ClusterBytes() && Reads(img, v.Data().Offset(s), data)
    requires RunInImage(v, img, s, n)
    ensures var r := ChainBytes(img, BpbOf(v), s, fuel); r.Some? && data <= r.value
    decreases n
  {
    hide FatEntry, ClusterBlob;
    var cb, off := v.Data().ClusterBytes(), v.Data().Offset(s);
    TailBytes(n, cb);
    ClusterReads(v, img, s, img[off..off + cb]);
    OffsetStep(v.Data(), s, 1);
    RunRest(v, img, s, n);
    if n == 1 {
      assert ChainBytes(img, BpbOf(v), FatEntry(img, BpbOf(v), s).value, fuel - 1) == Some([]);
      PrefixInside(img, off, cb, data, []);
    } else {
      var cut := if |data| <= cb then |data| else cb;
      RestReads(v, img, s, data, cut);
      assert RunInImage(v, img, s + 1, n - 1);
      BytesOfRun(v, img, s + 1, n - 1, data[cut..], fuel - 1);
      PrefixInside(img, off, cb, data, ChainBytes(img, BpbOf(v), s + 1, fuel - 1).value);
    }
  }

  /** What of the data lies behind the first cluster is found at the next one. */
  lemma RestReads(v: Vol, img: seq<byte>, s: nat, data: seq<byte>, cut: nat)
    requires s >= FIRST_CLUSTER && Reads(img, v.Data().Offset(s), data)
    requires v.Data().Offset(s + 1) <= |img|
    requires if |data| <= v.Data().ClusterBytes() then cut == |data| else cut == v.Data().ClusterBytes()
    ensures Reads(img, v.Data().Offset(s + 1), data[cut..])
  {
    OffsetStep(v.Data(), s, 1);
    if |data| > v.Data().ClusterBytes() {
      ReadsPart(img, v.Data().Offset(s), data, cut, |data|);
      assert data[cut..|data|] == data[cut..];
    }
  }

  lemma PrefixInside(img: seq<byte>, off: nat, cb: nat, data: seq<byte>, rest: seq<byte>)
    requires off + cb <= |img| && Reads(img, off, data)
    requires |data| > cb ==> data[cb..] <= rest
    ensures data <= img[off..off + cb] + rest
  {
    var blob := img[off..off + cb];
    if |data| <= cb {
      ReadsPart(img, off, blob, 0, |data|);
    } else {
      ReadsPart(img, off, data, 0, cb);
      assert data == data[..cb] + data[cb..];
    }
  }
}
