/** Sizing a FAT32 volume: how many sectors the FAT takes and how many clusters remain. */
module Geometry {
  import opened Numbers
  import opened Wrappers

  const SECTOR := 512
  const RESERVED := 32
  const NUM_FATS := 2
  const FAT32_MIN_CLUSTERS := 65525

  /** Sectors one FAT needs for n clusters, rounded up with floor division on a negative number. */
  function FatSize(n: nat): (fs: nat)
    ensures 128 * (fs - 1) < n + 2 <= 128 * fs
  {
    -((-(n + 2) * 4) / SECTOR)
  }

  predicate Fits(total: nat, spc: nat, n: nat)
  {
    RESERVED + NUM_FATS * FatSize(n) + n * spc <= total
  }

  /** The FAT size found by counting n down until the volume fits. */
  function SearchDown(total: nat, spc: nat, n: int): Option<nat>
    decreases n
  {
    if n <= 0 then None
    else if Fits(total, spc, n) then Some(FatSize(n))
    else SearchDown(total, spc, n - 1)
  }

  function FatSectors(total: nat, spc: nat): Option<nat>
    requires spc > 0
  {
    SearchDown(total, spc, (total - RESERVED) / spc)
  }

  function Clusters(total: nat, spc: nat): Option<nat>
    requires spc > 0
  {
    var fs := FatSectors(total, spc);
    if fs.None? then None
    else
      FatSectorsBound(total, spc);
      Some((total - RESERVED - NUM_FATS * fs.value) / spc)
  }

  /** n is the largest cluster count, at least 1, that fits together with its own FAT. */
  ghost predicate IsLargest(total: nat, spc: nat, n: nat)
  {
    n >= 1 && Fits(total, spc, n) && forall m: nat :: m > n ==> !Fits(total, spc, m)
  }

  /** Cluster counts above the start of the search cannot fit, FAT or no FAT. */
  lemma TooManyForVolume(total: nat, spc: nat, m: nat)
    requires spc > 0 && m > (total - RESERVED) / spc
    ensures !Fits(total, spc, m)
  {
    var q := (total - RESERVED) / spc;
    assert total - RESERVED == q * spc + (total - RESERVED) % spc;
    assert m * spc >= (q + 1) * spc by { MulMono(q + 1, m, spc); }
  }

  lemma {:induction false} SearchDownFindsLargest(total: nat, spc: nat, n: int)
    requires forall m: nat :: m > n ==> !Fits(total, spc, m)
    ensures SearchDown(total, spc, n).None? <==> forall m: nat :: m >= 1 ==> !Fits(total, spc, m)
    ensures SearchDown(total, spc, n).Some? ==>
              exists k: nat :: IsLargest(total, spc, k) && SearchDown(total, spc, n) == Some(FatSize(k))
    decreases n
  {
    if n > 0 {
      if Fits(total, spc, n) {
        assert IsLargest(total, spc, n);
      } else {
        SearchDownFindsLargest(total, spc, n - 1);
      }
    }
  }

  /** The descending search returns the FAT size of the largest count that fits, or nothing if none does. */
  lemma FatSectorsIsLargest(total: nat, spc: nat)
    requires spc > 0
    ensures FatSectors(total, spc).None? <==> forall m: nat :: m >= 1 ==> !Fits(total, spc, m)
    ensures FatSectors(total, spc).Some? ==>
              exists n: nat :: IsLargest(total, spc, n) && FatSectors(total, spc) == Some(FatSize(n))
  {
    forall m: nat | m > (total - RESERVED) / spc ensures !Fits(total, spc, m) {
      TooManyForVolume(total, spc, m);
    }
    SearchDownFindsLargest(total, spc, (total - RESERVED) / spc);
  }

  lemma FatSectorsBound(total: nat, spc: nat)
    requires spc > 0
    ensures var fs := FatSectors(total, spc);
            fs.Some? ==> fs.value >= 1 && RESERVED + NUM_FATS * fs.value + spc <= total
  {
    if FatSectors(total, spc).Some? {
      FatSectorsIsLargest(total, spc);
      var n: nat :| IsLargest(total, spc, n) && FatSectors(total, spc) == Some(FatSize(n));
      MulMono(1, n, spc);
    }
  }

  /** The data area of the recomputed cluster count ends inside the volume. */
  lemma DataAreaInVolume(total: nat, spc: nat)
    requires spc > 0 && FatSectors(total, spc).Some?
    ensures Clusters(total, spc).Some?
    ensures RESERVED + NUM_FATS * FatSectors(total, spc).value + Clusters(total, spc).value * spc <= total
  {
    FatSectorsBound(total, spc);
    var room := total - RESERVED - NUM_FATS * FatSectors(total, spc).value;
    assert room == (room / spc) * spc + room % spc;
  }

  // ------------------------------------------------ when the FAT is one sector short

  /** The FAT of the volume has an entry for every cluster and the two reserved ones. */
  predicate FatHoldsAll(total: nat, spc: nat)
    requires spc > 0 && FatSectors(total, spc).Some?
  {
    DataAreaInVolume(total, spc);
    Clusters(total, spc).value + 2 <= 128 * FatSectors(total, spc).value
  }

  /** A volume size for which the FAT comes out one or two entries short; a caller can test this. */
  predicate Exceptional(total: nat, spc: nat)
  {
    var x := total - RESERVED + spc;
    x >= 128 * spc + 2 && x % (128 * spc + 2) <= 1
  }

  /** Exceptional sizes are 32 + 2k + (128k - 1) * spc and one more, for k = 1, 2, ... */
  lemma ExceptionalSizes(total: nat, spc: nat)
    requires spc > 0
    ensures Exceptional(total, spc) <==>
            exists k: nat :: k >= 1 && 0 <= total - ExceptionalSize(spc, k) <= 1
  {
    var x, d := total - RESERVED + spc, 128 * spc + 2;
    if Exceptional(total, spc) {
      var k := x / d;
      assert x == k * d + x % d;
      assert k >= 1;
      SizeAsMultiple(spc, k);
    }
    if k: nat :| k >= 1 && 0 <= total - ExceptionalSize(spc, k) <= 1 {
      SizeAsMultiple(spc, k);
      var r := x - k * d;
      MulMono(1, k, d);
      RemainderOf(x, d, k, r);
    }
  }

  function ExceptionalSize(spc: nat, k: nat): int
  {
    RESERVED + 2 * k + (128 * k - 1) * spc
  }

  lemma SizeAsMultiple(spc: nat, k: nat)
    ensures ExceptionalSize(spc, k) - RESERVED + spc == k * (128 * spc + 2)
  {
    assert (128 * k - 1) * spc == 128 * k * spc - spc;
    assert k * (128 * spc + 2) == 128 * k * spc + 2 * k;
  }

  lemma QuotientIsMost(room: nat, spc: nat, c: nat)
    requires spc > 0
    ensures c * spc <= room <==> c <= room / spc
  {
    var m := room / spc;
    assert room == m * spc + room % spc;
    if c <= m { MulMono(c, m, spc); } else { MulMono(m + 1, c, spc); }
  }

  /** How far the recomputed count exceeds the count the FAT was sized for. */
  lemma ClusterExcess(total: nat, spc: nat, n: nat)
    requires spc > 0 && IsLargest(total, spc, n) && FatSectors(total, spc) == Some(FatSize(n))
    ensures Clusters(total, spc).Some?
    ensures var m := Clusters(total, spc).value; var k := FatSize(n);
            && n <= m
            && (m + 2 > 128 * k <==> 0 <= total - ExceptionalSize(spc, k) <= 1)
            && (m + 2 <= 128 * k ==> m == n)
            && (m + 2 > 128 * k ==> n == 128 * k - 2 && (if spc >= 2 then m == n + 1 else n + 1 <= m <= n + 2))
  {
    DataAreaInVolume(total, spc);
    assert !Fits(total, spc, n + 1);
    QuotientIsMost(total - RESERVED - NUM_FATS * FatSize(n), spc, n);
    if n + 3 <= 128 * FatSize(n) { RoomBelow(total, spc, n); } else { RoomAtTop(total, spc, n); }
  }

  /** One more cluster would still have its entry in the FAT. */
  lemma RoomBelow(total: nat, spc: nat, n: nat)
    requires spc > 0 && Fits(total, spc, n) && !Fits(total, spc, n + 1) && n + 3 <= 128 * FatSize(n)
    ensures (total - RESERVED - NUM_FATS * FatSize(n)) / spc == n
    ensures total < ExceptionalSize(spc, FatSize(n))
  {
    var room, k := total - RESERVED - NUM_FATS * FatSize(n), FatSize(n);
    assert FatSize(n + 1) == k;
    QuotientIsMost(room, spc, n);
    QuotientIsMost(room, spc, n + 1);
    MulMono(n + 1, 128 * k - 1, spc);
  }

  /** One more cluster would need another FAT sector. */
  lemma RoomAtTop(total: nat, spc: nat, n: nat)
    requires spc > 0 && Fits(total, spc, n) && !Fits(total, spc, n + 1) && n + 3 > 128 * FatSize(n)
    ensures n == 128 * FatSize(n) - 2
    ensures var m := (total - RESERVED - NUM_FATS * FatSize(n)) / spc;
            if 0 <= total - ExceptionalSize(spc, FatSize(n)) <= 1
            then (if spc >= 2 then m == n + 1 else n + 1 <= m <= n + 2) else m == n
  {
    var room, k := total - RESERVED - NUM_FATS * FatSize(n), FatSize(n);
    assert FatSize(n + 1) == k + 1;
    QuotientIsMost(room, spc, n);
    QuotientIsMost(room, spc, n + 1);
    QuotientIsMost(room, spc, n + 2);
    QuotientIsMost(room, spc, n + 3);
    OneMore(n + 1, spc);
    OneMore(n + 2, spc);
  }

  lemma OneMore(a: int, c: nat)
    ensures (a + 1) * c == a * c + c
  {
  }

  /** The largest count of an exceptional size is the one just below the FAT sector boundary. */
  lemma ExceptionalLargest(total: nat, spc: nat, n: nat, k: nat)
    requires spc > 0 && k >= 1 && IsLargest(total, spc, n)
    requires 0 <= total - ExceptionalSize(spc, k) <= 1
    ensures FatSize(n) == k
  {
    var c: nat := 128 * k - 2;
    assert FatSize(c) == k;
    assert (128 * k - 1) * spc == c * spc + spc;
    assert Fits(total, spc, c);
    if n > c {
      assert FatSize(n) >= k + 1;
      MulMono(128 * k - 1, n, spc);
    }
  }

  lemma ExceptionalAtLargest(total: nat, spc: nat, n: nat)
    requires spc > 0 && IsLargest(total, spc, n)
    ensures Exceptional(total, spc) <==> 0 <= total - ExceptionalSize(spc, FatSize(n)) <= 1
  {
    ExceptionalSizes(total, spc);
    if Exceptional(total, spc) {
      var k: nat :| k >= 1 && 0 <= total - ExceptionalSize(spc, k) <= 1;
      ExceptionalLargest(total, spc, n, k);
    }
    assert FatSize(n) >= 1;
  }

  /** The FAT holds an entry for every cluster except precisely at the exceptional volume sizes. */
  lemma FatHoldsAllExactly(total: nat, spc: nat)
    requires spc > 0 && FatSectors(total, spc).Some?
    ensures FatHoldsAll(total, spc) <==> !Exceptional(total, spc)
    ensures Exceptional(total, spc) ==>
              exists n: nat ::
                && IsLargest(total, spc, n) && FatSectors(total, spc) == Some(FatSize(n))
                && n + 2 == 128 * FatSectors(total, spc).value
                && (if spc >= 2 then Clusters(total, spc) == Some(n + 1)
                    else Clusters(total, spc) == Some(n + 1) || Clusters(total, spc) == Some(n + 2))
  {
    hide IsLargest, Exceptional, ExceptionalSize, Clusters, FatSectors;
    FatSectorsIsLargest(total, spc);
    var n: nat :| IsLargest(total, spc, n) && FatSectors(total, spc) == Some(FatSize(n));
    ClusterExcess(total, spc, n);
    ExceptionalAtLargest(total, spc, n);
  }

  /** On a volume of 268972032 bytes with 4 KiB clusters the FAT has 65536 entries, and 65537 are needed. */
  lemma ExceptionalExample()
    ensures var total := 268972032 / SECTOR;
            && FatSectors(total, 8) == Some(512) && Clusters(total, 8) == Some(65535) && !FatHoldsAll(total, 8)
  {
    var total, n := 268972032 / SECTOR, 65534;
    FatSectorsIsLargest(total, 8);
    assert Fits(total, 8, n);
    var k: nat :| IsLargest(total, 8, k) && FatSectors(total, 8) == Some(FatSize(k));
    assert !Fits(total, 8, n + 1);
  }

  // ---------------------------------------------------------------- the loops of the program

  method FindFatSectors(total: nat, spc: nat) returns (fs: Option<nat>)
    requires spc > 0
    ensures fs == FatSectors(total, spc)
  {
    var n := (total - RESERVED) / spc;
    while n > 0
      invariant SearchDown(total, spc, n) == FatSectors(total, spc)
    {
      if RESERVED + NUM_FATS * FatSize(n) + n * spc <= total {
        return Some(FatSize(n));
      }
      n := n - 1;
    }
    return None;
  }

  /** Cluster sizes in sectors, largest first, as the program probes them. */
  const CLUSTER_SIZES: seq<nat> := [64, 32, 16, 8, 4, 2, 1]

  predicate Acceptable(total: nat, spc: nat, maxClusters: nat)
    requires spc > 0
  {
    var c := Clusters(total, spc);
    c.Some? && c.value >= FAT32_MIN_CLUSTERS && (maxClusters == 0 || c.value <= maxClusters)
  }

  /**
   * The cluster size picked when none is forced: the largest acceptable one; failing that the smallest
   * that still reaches the FAT32 minimum; and no volume at all when no size does.
   */
  method PickClusterSize(total: nat, maxClusters: nat) returns (spc: Option<nat>)
    ensures spc.Some? ==> spc.value in CLUSTER_SIZES && Clusters(total, spc.value).Some?
                          && Clusters(total, spc.value).value >= FAT32_MIN_CLUSTERS
    ensures spc.Some? && Acceptable(total, spc.value, maxClusters) ==>
              forall s :: s in CLUSTER_SIZES && s > spc.value ==> !Acceptable(total, s, maxClusters)
    ensures spc.Some? && !Acceptable(total, spc.value, maxClusters) ==>
              forall s :: s in CLUSTER_SIZES ==> !Acceptable(total, s, maxClusters)
                                                 && (s < spc.value ==> !Acceptable(total, s, 0))
    ensures spc.None? <==> forall s :: s in CLUSTER_SIZES ==> !Acceptable(total, s, 0)
  {
    hide Clusters;
    var i := 0;
    while i < |CLUSTER_SIZES|
      invariant 0 <= i <= |CLUSTER_SIZES|
      invariant forall j :: 0 <= j < i ==> !Acceptable(total, CLUSTER_SIZES[j], maxClusters)
      invariant i > 0 ==> Clusters(total, 64).Some?
    {
      var s := CLUSTER_SIZES[i];
      var n := Clusters(total, s);
      if n.None? {
        MoreRoomForSmaller(total, s);
        TooSmallForAny(total);
        return None;
      }
      if n.value >= FAT32_MIN_CLUSTERS && (maxClusters == 0 || n.value <= maxClusters) {
        return Some(s);
      }
      i := i + 1;
    }
    i := |CLUSTER_SIZES|;
    while i > 0
      invariant 0 <= i <= |CLUSTER_SIZES|
      invariant forall j :: 0 <= j < |CLUSTER_SIZES| ==> !Acceptable(total, CLUSTER_SIZES[j], maxClusters)
      invariant forall j :: i <= j < |CLUSTER_SIZES| ==> !Acceptable(total, CLUSTER_SIZES[j], 0)
    {
      i := i - 1;
      var s := CLUSTER_SIZES[i];
      var n := Clusters(total, s);
      if n.Some? && n.value >= FAT32_MIN_CLUSTERS {
        return Some(s);
      }
    }
    return None;
  }

  /** A volume with room for one cluster of 64 sectors has room for one of any smaller size. */
  lemma MoreRoomForSmaller(total: nat, spc: nat)
    requires spc in CLUSTER_SIZES
    ensures Clusters(total, 64).Some? ==> Clusters(total, spc).Some?
  {
    if Clusters(total, 64).Some? {
      FatSectorsIsLargest(total, 64);
      FatSectorsIsLargest(total, spc);
      var n: nat :| IsLargest(total, 64, n);
      MulMono(spc, 64, n);
      assert Fits(total, spc, n);
    }
  }

  /** A volume without room for one cluster of 64 sectors does not reach the FAT32 minimum with any size. */
  lemma TooSmallForAny(total: nat)
    requires Clusters(total, 64).None?
    ensures forall s :: s in CLUSTER_SIZES ==> !Acceptable(total, s, 0)
  {
    FatSectorsIsLargest(total, 64);
    assert !Fits(total, 64, 1);
    forall s | s in CLUSTER_SIZES ensures !Acceptable(total, s, 0) {
      if FatSectors(total, s).Some? {
        DataAreaInVolume(total, s);
        MulMono(1, s, Clusters(total, s).value);
      }
    }
  }
}
