/** A FAT32 volume: its sectors outside the data area, and the image made of those and the runs of data. */
module Volume {
  import opened Bytes
  import opened Geometry
  import opened Allocator
  import opened Runs
  import opened Wrappers

  /** The volume label as its 11 bytes, with the time stamp of its directory entry. */
  datatype Tag = Tag(raw11: seq<byte>, time: nat, date: nat)

  predicate TagOk(t: Tag) { |t.raw11| == 11 && t.raw11[0] != 0 && t.time < 0x1_0000 && t.date < 0x1_0000 }

  datatype Vol = Vol(size: nat, spc: nat, fatSectors: nat, clusters: nat, tag: Tag)
  {
    function Total(): nat { size / SECTOR }

    function DataStart(): nat { RESERVED + NUM_FATS * fatSectors }

    function Data(): Area { Area(DataStart(), spc) }

    /** The FAT has room for an entry for every cluster. */
    predicate FatFits() { clusters + 2 <= 128 * fatSectors }
  }

  predicate VolOk(v: Vol)
  {
    && 1 <= v.spc <= 255
    && v.Total() < 0x1_0000_0000
    && FatSectors(v.Total(), v.spc) == Some(v.fatSectors)
    && Clusters(v.Total(), v.spc) == Some(v.clusters)
    && v.clusters + 2 < 0x0FFF_FFF8
    && TagOk(v.tag)
  }

  /** The data area ends inside the file, and the FAT is at most two entries short. */
  lemma VolBounds(v: Vol)
    requires VolOk(v)
    ensures 1 <= v.fatSectors < 0x1_0000_0000 && v.clusters >= 1
    ensures v.Data().Offset(v.clusters + 2) <= v.size
    ensures v.DataStart() * SECTOR + SECTOR <= v.size
    ensures v.clusters <= 128 * v.fatSectors
  {
    DataAreaInVolume(v.Total(), v.spc);
    FatSectorsBound(v.Total(), v.spc);
    FatSectorsIsLargest(v.Total(), v.spc);
    var n: nat :| IsLargest(v.Total(), v.spc, n) && FatSectors(v.Total(), v.spc) == Some(FatSize(n));
    ClusterExcess(v.Total(), v.spc, n);
  }

  lemma FatFitsExactly(v: Vol)
    requires VolOk(v)
    ensures v.FatFits() <==> !Exceptional(v.Total(), v.spc)
  {
    FatHoldsAllExactly(v.Total(), v.spc);
  }

  // ---------------------------------------------------------------- boot and FSInfo sectors

  function Packed11(v: Vol): (b: seq<byte>)
    requires v.spc <= 255 && v.Total() < 0x1_0000_0000
    ensures |b| == 25
    ensures b[..2] == Le16(SECTOR) && b[2] == v.spc && b[3..5] == Le16(RESERVED) && b[5] == NUM_FATS
  {
    var head := Le16(SECTOR) + [v.spc] + Le16(RESERVED) + [NUM_FATS];
    assert head[..2] == Le16(SECTOR) && head[3..5] == Le16(RESERVED);
    head + (Le16(0) + Le16(0) + [0xF8] + Le16(0) + Le16(63) + Le16(255) + Le32(0) + Le32(v.Total()))
  }

  function Packed36(v: Vol): (b: seq<byte>)
    requires v.fatSectors < 0x1_0000_0000
    ensures |b| == 16 && b[..4] == Le32(v.fatSectors) && b[8..12] == Le32(FIRST_CLUSTER)
  {
    Le32(v.fatSectors) + Le16(0) + Le16(0) + Le32(FIRST_CLUSTER) + Le16(1) + Le16(6)
  }

  /** Jump, OEM name, then the two packed parameter blocks, then what follows them. */
  function BootHead(): (ps: seq<Patch>)
    ensures InBounds(11, ps)
  {
    [Patch(0, [0xEB, 0x58, 0x90]), Patch(3, [0x4D, 0x53, 0x57, 0x49, 0x4E, 0x34, 0x2E, 0x31])]
  }

  function BootTail(v: Vol): (ps: seq<Patch>)
    requires TagOk(v.tag)
    ensures Within(ps, 64, SECTOR)
  {
    [Patch(64, [0x80]),
     Patch(66, [0x29]),
     Patch(67, Le32(0x4741_5231)),
     Patch(71, v.tag.raw11),
     Patch(82, [0x46, 0x41, 0x54, 0x33, 0x32, 0x20, 0x20, 0x20]),
     Patch(510, [0x55, 0xAA])]
  }

  function BootFields(v: Vol): (ps: seq<Patch>)
    requires VolOk(v)
    ensures InBounds(SECTOR, ps)
  {
    VolBounds(v);
    BootHead() + [Patch(11, Packed11(v))] + [Patch(36, Packed36(v))] + BootTail(v)
  }

  function BootSector(v: Vol): (b: seq<byte>)
    requires VolOk(v)
    ensures |b| == SECTOR
  {
    PutAll(Zeros(SECTOR), BootFields(v))
  }

  function InfoFields(v: Vol, nextFree: nat): (ps: seq<Patch>)
    requires VolOk(v) && nextFree <= v.clusters + 2
    ensures InBounds(SECTOR, ps)
  {
    [Patch(0, Le32(0x4161_5252)),
     Patch(484, Le32(0x6141_7272)),
     Patch(488, Le32(v.clusters + 2 - nextFree) + Le32(nextFree)),
     Patch(508, Le32(0xAA55_0000))]
  }

  function InfoSector(v: Vol, nextFree: nat): (b: seq<byte>)
    requires VolOk(v) && nextFree <= v.clusters + 2
    ensures |b| == SECTOR
  {
    PutAll(Zeros(SECTOR), InfoFields(v, nextFree))
  }

  /** What a reader takes from the boot sector. */
  datatype Bpb = Bpb(bps: nat, spc: nat, reserved: nat, nfats: nat, fatsz: nat, rootCluster: nat)

  function ParseBoot(b: seq<byte>): Bpb
    requires |b| >= 48
  {
    Bpb(Get16(b, 11), b[13], Get16(b, 14), b[16], Get32(b, 36), Get32(b, 44))
  }

  /** Two blocks written between a head and a tail that stay clear of them. */
  lemma TwoBlocks(img: seq<byte>, head: seq<Patch>, p: seq<byte>, q: seq<byte>, tail: seq<Patch>)
    requires |img| == SECTOR && |p| == 25 && |q| == 16 && InBounds(SECTOR, head) && Within(tail, 64, SECTOR)
    requires InBounds(SECTOR, head + [Patch(11, p)] + [Patch(36, q)] + tail)
    ensures var r := PutAll(img, head + [Patch(11, p)] + [Patch(36, q)] + tail); Reads(r, 11, p) && Reads(r, 36, q)
  {
    var i1 := PutAll(img, head);
    var i2 := Put(i1, Patch(11, p));
    PutReads(i1, Patch(11, p));
    var i3 := Put(i2, Patch(36, q));
    PutReads(i2, Patch(36, q));
    PutKeepsReads(i2, Patch(36, q), 11, p);
    PutAllSnoc(img, head, Patch(11, p));
    PutAllSnoc(img, head + [Patch(11, p)], Patch(36, q));
    PutAllKeepsReads(i3, tail, 11, p);
    PutAllKeepsReads(i3, tail, 36, q);
    PutAllConcat(img, head + [Patch(11, p)] + [Patch(36, q)], tail);
  }

  lemma BootSectorParses(v: Vol)
    requires VolOk(v)
    ensures ParseBoot(BootSector(v)) == Bpb(SECTOR, v.spc, RESERVED, NUM_FATS, v.fatSectors, FIRST_CLUSTER)
  {
    VolBounds(v);
    TwoBlocks(Zeros(SECTOR), BootHead(), Packed11(v), Packed36(v), BootTail(v));
    ParsePacked(BootSector(v), v);
  }

  lemma ParsePacked(b: seq<byte>, v: Vol)
    requires v.spc <= 255 && v.Total() < 0x1_0000_0000 && v.fatSectors < 0x1_0000_0000
    requires |b| == SECTOR && Reads(b, 11, Packed11(v)) && Reads(b, 36, Packed36(v))
    ensures ParseBoot(b) == Bpb(SECTOR, v.spc, RESERVED, NUM_FATS, v.fatSectors, FIRST_CLUSTER)
  {
    var f, g := Packed11(v), Packed36(v);
    ReadsPart(b, 11, f, 0, 2);
    ReadsPart(b, 11, f, 2, 3);
    ReadsPart(b, 11, f, 3, 5);
    ReadsPart(b, 11, f, 5, 6);
    ReadsPart(b, 36, g, 0, 4);
    ReadsPart(b, 36, g, 8, 12);
    assert b[13] == b[13..14][0] == f[2] && b[16] == b[16..17][0] == f[5];
    GetLe16(b, 11, SECTOR);
    GetLe16(b, 14, RESERVED);
    GetLe32(b, 36, v.fatSectors);
    GetLe32(b, 44, FIRST_CLUSTER);
  }

  lemma BootFieldReads(v: Vol, i: nat)
    requires VolOk(v) && i < |BootFields(v)|
    ensures Reads(BootSector(v), BootFields(v)[i].off, BootFields(v)[i].data)
  {
    VolBounds(v);
    var ps := BootFields(v);
    assert |ps| == 10;
    var later := ps[i + 1..];
    forall j | 0 <= j < |later| ensures ps[i].End() <= later[j].off { assert later[j] == ps[i + 1 + j]; }
    ReadBack(Zeros(SECTOR), ps, i);
  }

  /** What else a boot sector holds: parameters the reader does not look at, the identification, the signature. */
  lemma BootSectorBytes(v: Vol)
    requires VolOk(v)
    ensures var b := BootSector(v);
            && b[..11] == [0xEB, 0x58, 0x90, 0x4D, 0x53, 0x57, 0x49, 0x4E, 0x34, 0x2E, 0x31]
            && Get16(b, 17) == Get16(b, 19) == Get16(b, 22) == 0 && b[21] == 0xF8
            && Get16(b, 24) == 63 && Get16(b, 26) == 255 && Get32(b, 28) == 0 && Get32(b, 32) == v.size / 512
            && Get16(b, 40) == Get16(b, 42) == 0 && Get16(b, 48) == 1 && Get16(b, 50) == 6
    ensures var b := BootSector(v);
            && b[64] == 0x80 && b[66] == 0x29 && Get32(b, 67) == 0x4741_5231 && b[71..82] == v.tag.raw11
            && b[82..90] == [0x46, 0x41, 0x54, 0x33, 0x32, 0x20, 0x20, 0x20] && b[510..] == [0x55, 0xAA]
  {
    hide BootSector, VolOk, Reads, Packed11, Packed36, BootFields, Get16, Get32;
    BlocksRead(v);
    Packed11Reads(BootSector(v), v);
    Packed36Reads(BootSector(v), v);
    BootTailReads(v);
  }

  lemma BlocksRead(v: Vol)
    requires VolOk(v)
    ensures BootSector(v)[..11] == [0xEB, 0x58, 0x90, 0x4D, 0x53, 0x57, 0x49, 0x4E, 0x34, 0x2E, 0x31]
    ensures v.spc <= 255 && v.Total() < 0x1_0000_0000 && v.fatSectors < 0x1_0000_0000
    ensures Reads(BootSector(v), 11, Packed11(v)) && Reads(BootSector(v), 36, Packed36(v))
  {
    hide BootSector, Packed11, Packed36;
    VolBounds(v);
    BootFieldReads(v, 0);
    BootFieldReads(v, 1);
    assert BootSector(v)[..11] == BootSector(v)[0..3] + BootSector(v)[3..11];
    BootFieldReads(v, 2);
    BootFieldReads(v, 3);
  }

  lemma Packed11Reads(b: seq<byte>, v: Vol)
    requires v.spc <= 255 && v.Total() < 0x1_0000_0000 && |b| == SECTOR && Reads(b, 11, Packed11(v))
    ensures Get16(b, 17) == Get16(b, 19) == Get16(b, 22) == 0 && b[21] == 0xF8
    ensures Get16(b, 24) == 63 && Get16(b, 26) == 255 && Get32(b, 28) == 0 && Get32(b, 32) == v.Total()
  {
    var f := Packed11(v);
    assert forall k :: 0 <= k < 25 ==> b[11 + k] == b[11..36][k] == f[k];
    assert b[32..36] == f[21..25] == Le32(v.Total());
    GetLe32(b, 32, v.Total());
  }

  lemma Packed36Reads(b: seq<byte>, v: Vol)
    requires v.fatSectors < 0x1_0000_0000 && |b| == SECTOR && Reads(b, 36, Packed36(v))
    ensures Get16(b, 40) == Get16(b, 42) == 0 && Get16(b, 48) == 1 && Get16(b, 50) == 6
  {
    var g := Packed36(v);
    assert forall k :: 0 <= k < 16 ==> b[36 + k] == b[36..52][k] == g[k];
  }

  lemma BootTailReads(v: Vol)
    requires VolOk(v)
    ensures var b := BootSector(v);
            && b[64] == 0x80 && b[66] == 0x29 && Get32(b, 67) == 0x4741_5231 && b[71..82] == v.tag.raw11
            && b[82..90] == [0x46, 0x41, 0x54, 0x33, 0x32, 0x20, 0x20, 0x20] && b[510..] == [0x55, 0xAA]
  {
    hide BootSector;
    var b := BootSector(v);
    BootFieldReads(v, 4);
    BootFieldReads(v, 5);
    assert b[64] == b[64..65][0] && b[66] == b[66..67][0];
    BootFieldReads(v, 6);
    assert b[67..71] == Le32(0x4741_5231);
    GetLe32(b, 67, 0x4741_5231);
    BootFieldReads(v, 7);
    BootFieldReads(v, 8);
    BootFieldReads(v, 9);
    assert b[510..] == b[510..512];
  }

  lemma InfoSectorCounts(v: Vol, nextFree: nat)
    requires VolOk(v) && nextFree <= v.clusters + 2
    ensures Get32(InfoSector(v, nextFree), 488) == v.clusters + 2 - nextFree
    ensures Get32(InfoSector(v, nextFree), 492) == nextFree
    ensures var b := InfoSector(v, nextFree);
            Get32(b, 0) == 0x4161_5252 && Get32(b, 484) == 0x6141_7272 && Get32(b, 508) == 0xAA55_0000
  {
    InfoMarks(v, nextFree);
    var ps, b := InfoFields(v, nextFree), InfoSector(v, nextFree);
    ReadBack(Zeros(SECTOR), ps, 2);
    assert b[488..492] == b[488..496][..4] == Le32(v.clusters + 2 - nextFree);
    assert b[492..496] == b[488..496][4..] == Le32(nextFree);
    GetLe32(b, 488, v.clusters + 2 - nextFree);
    GetLe32(b, 492, nextFree);
  }

  lemma InfoMarks(v: Vol, nextFree: nat)
    requires VolOk(v) && nextFree <= v.clusters + 2
    ensures var b := InfoSector(v, nextFree);
            Get32(b, 0) == 0x4161_5252 && Get32(b, 484) == 0x6141_7272 && Get32(b, 508) == 0xAA55_0000
  {
    var ps, b := InfoFields(v, nextFree), InfoSector(v, nextFree);
    ReadBack(Zeros(SECTOR), ps, 0);
    ReadBack(Zeros(SECTOR), ps, 1);
    ReadBack(Zeros(SECTOR), ps, 3);
    GetLe32(b, 0, 0x4161_5252);
    GetLe32(b, 484, 0x6141_7272);
    GetLe32(b, 508, 0xAA55_0000);
  }

  // ---------------------------------------------------------------- the FAT as bytes

  predicate FatValues(fat: seq<nat>) { forall c :: 0 <= c < |fat| ==> fat[c] < 0x1_0000_0000 }

  function Join32(fat: seq<nat>): (b: seq<byte>)
    requires FatValues(fat)
    ensures |b| == 4 * |fat|
  {
    if fat == [] then [] else Join32(fat[..|fat| - 1]) + Le32(fat[|fat| - 1])
  }

  lemma {:induction false} Join32At(fat: seq<nat>, c: nat)
    requires FatValues(fat) && c < |fat|
    ensures Join32(fat)[4 * c..4 * c + 4] == Le32(fat[c])
    decreases |fat|
  {
    var k := |fat| - 1;
    if c < k {
      Join32At(fat[..k], c);
      assert Join32(fat)[4 * c..4 * c + 4] == Join32(fat[..k])[4 * c..4 * c + 4];
    }
  }

  /** The FAT, padded with zeros to whole sectors -- not cut when it is longer than that. */
  function FatBytes(v: Vol, fat: seq<nat>): (b: seq<byte>)
    requires FatValues(fat)
    ensures |b| == if 4 * |fat| >= v.fatSectors * SECTOR then 4 * |fat| else v.fatSectors * SECTOR
  {
    var b := Join32(fat);
    if |b| >= v.fatSectors * SECTOR then b else b + Zeros(v.fatSectors * SECTOR - |b|)
  }

  // ---------------------------------------------------------------- the whole image

  /** What a finished image is made of: run lengths, their blobs, and the FAT that links them. */
  datatype Body = Body(ns: seq<nat>, blobs: seq<seq<byte>>, fat: seq<nat>)

  predicate BodyOk(v: Vol, x: Body)
  {
    && VolOk(v)
    && BlobsFit(v.Data(), x.ns, x.blobs)
    && |x.fat| == v.clusters + 2 && FatValues(x.fat) && Laid(x.fat, x.ns)
  }

  function NextFree(x: Body): nat { FIRST_CLUSTER + Sum(x.ns) }

  function MetaPatches(v: Vol, x: Body): (ps: seq<Patch>)
    requires BodyOk(v, x)
  {
    [Patch(0, BootSector(v)), Patch(SECTOR, InfoSector(v, NextFree(x))),
     Patch(6 * SECTOR, BootSector(v)), Patch(7 * SECTOR, InfoSector(v, NextFree(x))),
     Patch(RESERVED * SECTOR, FatBytes(v, x.fat)),
     Patch((RESERVED + v.fatSectors) * SECTOR, FatBytes(v, x.fat))]
  }

  function DataPatches(v: Vol, x: Body): (ps: seq<Patch>)
    requires BodyOk(v, x)
  {
    RunPatches(v.Data(), x.ns, x.blobs)
  }

  lemma PatchesInBounds(v: Vol, x: Body)
    requires BodyOk(v, x)
    ensures InBounds(v.size, DataPatches(v, x)) && InBounds(v.size, MetaPatches(v, x))
    ensures InBounds(v.size, DataPatches(v, x) + MetaPatches(v, x))
  {
    VolBounds(v);
    RunPatchesWithin(v.Data(), x.ns, x.blobs);
    OffsetMono(v.Data(), NextFree(x), v.clusters + 2);
  }

  function Image(v: Vol, x: Body): (img: seq<byte>)
    requires BodyOk(v, x)
    ensures |img| == v.size
  {
    PatchesInBounds(v, x);
    PutAll(Zeros(v.size), DataPatches(v, x) + MetaPatches(v, x))
  }

  /** The sectors ahead of the data area are what the last writes put there. */
  lemma HeadReads(v: Vol, x: Body)
    requires BodyOk(v, x)
    ensures Reads(Image(v, x), 0, BootSector(v))
    ensures Reads(Image(v, x), SECTOR, InfoSector(v, NextFree(x)))
    ensures Reads(Image(v, x), 3072, BootSector(v)) && Reads(Image(v, x), 3584, InfoSector(v, NextFree(x)))
  {
    hide BootSector, InfoSector, FatBytes, DataPatches, Image, BodyOk;
    MetaReads(v, x, 0);
    MetaReads(v, x, 1);
    MetaReads(v, x, 2);
    MetaReads(v, x, 3);
  }

  /** None of the later writes reaches the first four of the last six. */
  lemma MetaReads(v: Vol, x: Body, k: nat)
    requires BodyOk(v, x) && k < 4
    ensures Reads(Image(v, x), MetaPatches(v, x)[k].off, MetaPatches(v, x)[k].data)
  {
    hide BootSector, InfoSector, FatBytes, DataPatches;
    PatchesInBounds(v, x);
    var data, meta := DataPatches(v, x), MetaPatches(v, x);
    var ps, i := data + meta, |data| + k;
    assert ps[i] == meta[k] && ps[i + 1..] == meta[k + 1..];
    ReadBack(Zeros(v.size), ps, i);
  }

  /** The first FAT copy, as far as it reaches before the second one, which is written later. */
  lemma FatReads(v: Vol, x: Body)
    requires BodyOk(v, x)
    ensures Reads(Image(v, x), RESERVED * SECTOR, FatBytes(v, x.fat)[..v.fatSectors * SECTOR])
    ensures Reads(Image(v, x), (RESERVED + v.fatSectors) * SECTOR, FatBytes(v, x.fat))
  {
    hide BootSector, InfoSector, FatBytes, DataPatches, Reads;
    PatchesInBounds(v, x);
    VolBounds(v);
    var data, meta := DataPatches(v, x), MetaPatches(v, x);
    var before := PutAll(Zeros(v.size), data + meta[..4]);
    var four, five := data + meta[..4], data + meta[..5];
    assert five == four + [meta[4]] && data + meta == five + [meta[5]];
    PutAllSnoc(Zeros(v.size), four, meta[4]);
    PutAllSnoc(Zeros(v.size), five, meta[5]);
    TwoCopies(before, meta[4], meta[5], v.fatSectors * SECTOR);
  }

  /** Of two copies one behind the other, the second may overwrite the end of the first. */
  lemma TwoCopies(img: seq<byte>, p: Patch, q: Patch, n: nat)
    requires p.End() <= |img| && q.End() <= |img| && q.off == p.off + n && n <= |p.data|
    ensures Reads(Put(Put(img, p), q), p.off, p.data[..n]) && Reads(Put(Put(img, p), q), q.off, q.data)
  {
    PutReads(img, p);
    ReadsPart(Put(img, p), p.off, p.data, 0, n);
    assert p.data[0..n] == p.data[..n];
    PutKeepsReads(Put(img, p), q, p.off, p.data[..n]);
    PutReads(Put(img, p), q);
  }

  lemma FatWord(v: Vol, fat: seq<nat>, c: nat)
    requires FatValues(fat) && c < |fat|
    ensures FatBytes(v, fat)[4 * c..4 * c + 4] == Le32(fat[c])
  {
    Join32At(fat, c);
    assert FatBytes(v, fat)[4 * c..4 * c + 4] == Join32(fat)[4 * c..4 * c + 4];
  }

  /** Reading FAT entry c from the image. */
  lemma FatEntryReads(v: Vol, x: Body, c: nat)
    requires BodyOk(v, x) && c < |x.fat| && c < 128 * v.fatSectors
    ensures RESERVED * SECTOR + 4 * c + 4 <= v.size
    ensures Get32(Image(v, x), RESERVED * SECTOR + 4 * c) == x.fat[c]
  {
    hide Image, FatBytes, Reads, Get32;
    FatReads(v, x);
    var full := FatBytes(v, x.fat);
    var cut := full[..v.fatSectors * SECTOR];
    ReadsPart(Image(v, x), RESERVED * SECTOR, cut, 4 * c, 4 * c + 4);
    FatWord(v, x.fat, c);
    SliceOfSlice(full, 0, v.fatSectors * SECTOR, 4 * c, 4 * c + 4);
    GetLe32(Image(v, x), RESERVED * SECTOR + 4 * c, x.fat[c]);
  }

  /** And from the second copy, which holds all entries. */
  lemma SecondFatReads(v: Vol, x: Body, c: nat)
    requires BodyOk(v, x) && c < |x.fat|
    ensures (RESERVED + v.fatSectors) * SECTOR + 4 * c + 4 <= v.size
    ensures Get32(Image(v, x), (RESERVED + v.fatSectors) * SECTOR + 4 * c) == x.fat[c]
  {
    hide Image, FatBytes, Reads, Get32;
    FatReads(v, x);
    var full, off := FatBytes(v, x.fat), (RESERVED + v.fatSectors) * SECTOR;
    ReadsInside(Image(v, x), off, full);
    FatWord(v, x.fat, c);
    ReadsPart(Image(v, x), off, full, 4 * c, 4 * c + 4);
    ReadsInside(Image(v, x), off + 4 * c, full[4 * c..4 * c + 4]);
    GetLe32(Image(v, x), off + 4 * c, x.fat[c]);
  }

  lemma ReadsInside(img: seq<byte>, off: nat, data: seq<byte>)
    requires Reads(img, off, data)
    ensures off + |data| <= |img| && img[off..off + |data|] == data
  {
  }

  lemma MetaClear(v: Vol, x: Body, lo: nat, hi: nat)
    requires BodyOk(v, x) && v.FatFits() && v.DataStart() * SECTOR <= lo
    ensures Clear(MetaPatches(v, x), lo, hi)
  {
    VolBounds(v);
  }

  /** When the FAT fits, nothing overwrites the data area: every blob is read back. */
  lemma DataReads(v: Vol, x: Body, i: nat)
    requires BodyOk(v, x) && v.FatFits() && i < |x.ns| && x.ns[i] > 0
    ensures Reads(Image(v, x), v.Data().Offset(Start(x.ns, i)), x.blobs[i])
  {
    PatchesInBounds(v, x);
    var z, lo := Zeros(v.size), v.Data().Offset(Start(x.ns, i));
    RunReadBack(v.Data(), x.ns, x.blobs, z, i);
    OffsetMono(v.Data(), Start(x.ns, i), Start(x.ns, i));
    MetaClear(v, x, lo, lo + |x.blobs[i]|);
    PutAllKeepsReads(PutAll(z, DataPatches(v, x)), MetaPatches(v, x), lo, x.blobs[i]);
    PutAllConcat(z, DataPatches(v, x), MetaPatches(v, x));
  }

  /** When the FAT does not fit, its second copy runs into cluster 2 and the first byte there is overwritten. */
  lemma DataClobbered(v: Vol, x: Body)
    requires BodyOk(v, x) && !v.FatFits()
    ensures 128 * v.fatSectors < |x.fat| && v.DataStart() * SECTOR < v.size
    ensures Image(v, x)[v.DataStart() * SECTOR] == x.fat[128 * v.fatSectors] % 256
  {
    hide Image, FatBytes, Reads;
    VolBounds(v);
    FatReads(v, x);
    var img, c := Image(v, x), 128 * v.fatSectors;
    ReadsPart(img, (RESERVED + v.fatSectors) * SECTOR, FatBytes(v, x.fat), 4 * c, 4 * c + 4);
    FatWord(v, x.fat, c);
    assert (RESERVED + v.fatSectors) * SECTOR + 4 * c == v.DataStart() * SECTOR;
    FirstByteOf(img, v.DataStart() * SECTOR, x.fat[c]);
  }

  lemma FirstByteOf(img: seq<byte>, off: nat, w: nat)
    requires w < 0x1_0000_0000 && Reads(img, off, Le32(w))
    ensures off < |img| && img[off] == w % 256
  {
    assert img[off] == img[off..off + 4][0];
  }
}
