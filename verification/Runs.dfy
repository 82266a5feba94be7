/** The data area of a volume: runs of clusters, each holding one blob written at its first cluster. */
module Runs {
  import opened Bytes
  import opened Geometry
  import opened Allocator

  /** Where the data area starts, in sectors, and how many sectors a cluster has. */
  datatype Area = Area(dataStart: nat, spc: nat)
  {
    function ClusterBytes(): nat { spc * SECTOR }

    /** Byte offset of a cluster, from cluster 2 on. */
    function Offset(c: nat): nat
      requires c >= FIRST_CLUSTER
    {
      (dataStart + (c - FIRST_CLUSTER) * spc) * SECTOR
    }
  }

  lemma OffsetStep(a: Area, c: nat, n: nat)
    requires c >= FIRST_CLUSTER
    ensures a.Offset(c + n) == a.Offset(c) + n * a.ClusterBytes()
  {
    assert (c + n - FIRST_CLUSTER) * a.spc == (c - FIRST_CLUSTER) * a.spc + n * a.spc;
    assert n * a.spc * SECTOR == n * (a.spc * SECTOR);
  }

  lemma OffsetMono(a: Area, c: nat, d: nat)
    requires FIRST_CLUSTER <= c <= d
    ensures a.dataStart * SECTOR <= a.Offset(c) <= a.Offset(d)
  {
    OffsetStep(a, c, d - c);
    OffsetStep(a, FIRST_CLUSTER, c - FIRST_CLUSTER);
  }

  /** Each blob fits the clusters of its run. */
  predicate BlobsFit(a: Area, ns: seq<nat>, blobs: seq<seq<byte>>)
  {
    |ns| == |blobs| && forall i :: 0 <= i < |ns| ==> |blobs[i]| <= ns[i] * a.ClusterBytes()
  }

  /** One write per run that has clusters, at its first cluster. */
  function RunPatches(a: Area, ns: seq<nat>, blobs: seq<seq<byte>>): (ps: seq<Patch>)
    requires |ns| == |blobs|
    decreases |ns|
  {
    if ns == [] then []
    else
      var k := |ns| - 1;
      RunPatches(a, ns[..k], blobs[..k])
      + (if ns[k] == 0 then [] else [Patch(a.Offset(FIRST_CLUSTER + Sum(ns[..k])), blobs[k])])
  }

  predicate Within(ps: seq<Patch>, lo: nat, hi: nat)
  {
    forall i :: 0 <= i < |ps| ==> lo <= ps[i].off && ps[i].End() <= hi
  }

  /** All the writes stay inside the clusters of the runs. */
  lemma {:induction false} RunPatchesWithin(a: Area, ns: seq<nat>, blobs: seq<seq<byte>>)
    requires BlobsFit(a, ns, blobs)
    ensures Within(RunPatches(a, ns, blobs), a.dataStart * SECTOR, a.Offset(FIRST_CLUSTER + Sum(ns)))
    decreases |ns|
  {
    if ns != [] {
      var k := |ns| - 1;
      RunPatchesWithin(a, ns[..k], blobs[..k]);
      var s := FIRST_CLUSTER + Sum(ns[..k]);
      assert FIRST_CLUSTER + Sum(ns) == s + ns[k];
      OffsetStep(a, s, ns[k]);
      OffsetMono(a, s, s + ns[k]);
    }
  }

  /** The bytes of an earlier run end before a later run starts. */
  lemma RunsApart(a: Area, ns: seq<nat>, len: nat, i: nat, k: nat)
    requires i < k <= |ns| && len <= ns[i] * a.ClusterBytes()
    ensures a.Offset(Start(ns, i)) + len <= a.Offset(Start(ns, k))
  {
    StartsOrdered(ns, i, k);
    OffsetStep(a, Start(ns, i), ns[i]);
    OffsetMono(a, Start(ns, i) + ns[i], Start(ns, k));
  }

  lemma StartPrefix(ns: seq<nat>, k: nat, i: nat)
    requires i <= k <= |ns|
    ensures Start(ns[..k], i) == Start(ns, i)
  {
    assert ns[..k][..i] == ns[..i];
  }

  /** A blob of a run is read back after all the writes into the data area. */
  lemma {:induction false} RunReadBack(a: Area, ns: seq<nat>, blobs: seq<seq<byte>>, img: seq<byte>, i: nat)
    requires BlobsFit(a, ns, blobs) && i < |ns| && ns[i] > 0
    requires InBounds(|img|, RunPatches(a, ns, blobs))
    ensures Reads(PutAll(img, RunPatches(a, ns, blobs)), a.Offset(Start(ns, i)), blobs[i])
    decreases |ns|
  {
    var k := |ns| - 1;
    var ps, before := RunPatches(a, ns, blobs), RunPatches(a, ns[..k], blobs[..k]);
    if ns[k] == 0 {
      assert ps == before && i < k;
      StartPrefix(ns, k, i);
      RunReadBack(a, ns[..k], blobs[..k], img, i);
    } else {
      var q := Patch(a.Offset(Start(ns, k)), blobs[k]);
      assert ps == before + [q];
      assert ps[|ps| - 1] == q && ps[..|ps| - 1] == before;
      assert InBounds(|img|, before);
      if i == k {
        PutReads(PutAll(img, before), q);
      } else {
        StartPrefix(ns, k, i);
        RunReadBack(a, ns[..k], blobs[..k], img, i);
        RunsApart(a, ns, |blobs[i]|, i, k);
        PutKeepsReads(PutAll(img, before), q, a.Offset(Start(ns, i)), blobs[i]);
      }
    }
  }
}
