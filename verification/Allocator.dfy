/** Cluster allocation: every chain is a run of consecutive clusters, handed out in order. */
module Allocator {
  import opened Geometry
  import opened Wrappers

  const END_OF_CHAIN: nat := 0x0FFF_FFFF
  const FIRST_CLUSTER: nat := 2

  // ---------------------------------------------------------------- runs laid one after another

  function Sum(ns: seq<nat>): nat
  {
    if ns == [] then 0 else Sum(ns[..|ns| - 1]) + ns[|ns| - 1]
  }

  /** First cluster of the i-th run when runs of the given lengths are allocated in order. */
  function Start(ns: seq<nat>, i: nat): nat
    requires i <= |ns|
  {
    FIRST_CLUSTER + Sum(ns[..i])
  }

  /** What is recorded as a node's first cluster: 0 when it needs none. */
  function Placed(ns: seq<nat>, i: nat): nat
    requires i < |ns|
  {
    if ns[i] == 0 then 0 else Start(ns, i)
  }

  lemma StartNext(ns: seq<nat>, i: nat)
    requires i < |ns|
    ensures Start(ns, i + 1) == Start(ns, i) + ns[i]
  {
    assert ns[..i + 1][..i] == ns[..i];
  }

  lemma {:induction false} StartsOrdered(ns: seq<nat>, i: nat, j: nat)
    requires i < j <= |ns|
    ensures Start(ns, i) + ns[i] <= Start(ns, j)
    decreases j
  {
    StartNext(ns, j - 1);
    if i < j - 1 { StartsOrdered(ns, i, j - 1); }
  }

  /** Every allocated cluster belongs to exactly one run. */
  lemma {:induction false} RunsPartition(ns: seq<nat>, c: nat) returns (i: nat)
    requires FIRST_CLUSTER <= c < FIRST_CLUSTER + Sum(ns)
    ensures i < |ns| && Start(ns, i) <= c < Start(ns, i) + ns[i]
    ensures forall j :: 0 <= j < |ns| && Start(ns, j) <= c < Start(ns, j) + ns[j] ==> j == i
    decreases |ns|
  {
    i := |ns| - 1;
    assert ns[..|ns|] == ns;
    while c < Start(ns, i)
      invariant 0 <= i < |ns|
      invariant c < Start(ns, i + 1)
      decreases i
    {
      StartNext(ns, i - 1);
      i := i - 1;
    }
    StartNext(ns, i);
    forall j | 0 <= j < |ns| && Start(ns, j) <= c < Start(ns, j) + ns[j] ensures j == i {
      if j < i { StartsOrdered(ns, j, i); }
      if i < j { StartsOrdered(ns, i, j); }
    }
  }

  // ---------------------------------------------------------------- the FAT

  /** Clusters s, s+1, ..., s+n-1 are linked in that order and the last one ends the chain. */
  predicate IsRun(fat: seq<nat>, s: nat, n: nat)
  {
    && n >= 1 && s + n <= |fat|
    && (forall c :: s <= c < s + n - 1 ==> fat[c] == c + 1)
    && fat[s + n - 1] == END_OF_CHAIN
  }

  predicate IsFresh(fat: seq<nat>)
  {
    |fat| >= 2 && fat[0] == 0x0FFF_FFF8 && fat[1] == END_OF_CHAIN
  }

  /** The FAT after runs of the given lengths: each run linked, everything behind them free. */
  predicate Laid(fat: seq<nat>, ns: seq<nat>)
  {
    && IsFresh(fat)
    && FIRST_CLUSTER + Sum(ns) <= |fat|
    && (forall i :: 0 <= i < |ns| && ns[i] > 0 ==> IsRun(fat, Start(ns, i), ns[i]))
    && (forall c :: FIRST_CLUSTER + Sum(ns) <= c < |fat| ==> fat[c] == 0)
  }

  /** From one FAT to the next: a run of n clusters from `start` on, or none, and nothing behind it. */
  predicate Grown(fat: seq<nat>, fat': seq<nat>, start: nat, n: nat)
  {
    && |fat'| == |fat| && start + n <= |fat|
    && (forall k :: 0 <= k < start ==> fat'[k] == fat[k])
    && (n > 0 ==> IsRun(fat', start, n))
    && (forall k :: start + n <= k < |fat| ==> fat'[k] == 0)
  }

  lemma LaidExtend(fat: seq<nat>, fat': seq<nat>, ns: seq<nat>, n: nat)
    requires Laid(fat, ns) && n >= 1 && Grown(fat, fat', FIRST_CLUSTER + Sum(ns), n)
    ensures Laid(fat', ns + [n])
  {
    hide IsRun, Sum, Start;
    var ms := ns + [n];
    SumSnoc(ns, n);
    forall i | 0 <= i < |ms| && ms[i] > 0 ensures IsRun(fat', Start(ms, i), ms[i]) {
      RunKept(fat, fat', ns, n, i);
    }
  }

  lemma SumSnoc(ns: seq<nat>, n: nat)
    ensures Sum(ns + [n]) == Sum(ns) + n
  {
    assert (ns + [n])[..|ns|] == ns;
  }

  lemma RunKept(fat: seq<nat>, fat': seq<nat>, ns: seq<nat>, n: nat, i: nat)
    requires Laid(fat, ns) && |fat'| == |fat| && i <= |ns| && (i < |ns| ==> ns[i] > 0)
    requires forall c :: 0 <= c < FIRST_CLUSTER + Sum(ns) ==> fat'[c] == fat[c]
    requires IsRun(fat', FIRST_CLUSTER + Sum(ns), n)
    ensures IsRun(fat', Start(ns + [n], i), (ns + [n])[i])
  {
    hide IsRun, Sum, Start;
    StartsSame(ns, n, i);
    if i < |ns| {
      assert IsRun(fat, Start(ns, i), ns[i]);
      SameRun(fat, fat', Start(ns, i), ns[i], FIRST_CLUSTER + Sum(ns));
    }
  }

  /** A run starts where it did, and ends where the next one can start. */
  lemma StartsSame(ns: seq<nat>, n: nat, i: nat)
    requires i <= |ns|
    ensures Start(ns + [n], i) == if i < |ns| then Start(ns, i) else FIRST_CLUSTER + Sum(ns)
    ensures i < |ns| ==> Start(ns, i) + ns[i] <= FIRST_CLUSTER + Sum(ns)
  {
    hide Sum;
    assert (ns + [n])[..i] == ns[..i] && ns[..|ns|] == ns;
    if i < |ns| { StartsOrdered(ns, i, |ns|); }
  }

  lemma SameRun(fat: seq<nat>, fat': seq<nat>, s: nat, n: nat, limit: nat)
    requires IsRun(fat, s, n) && |fat'| == |fat| && s + n <= limit <= |fat|
    requires forall c :: 0 <= c < limit ==> fat'[c] == fat[c]
    ensures IsRun(fat', s, n)
  {
  }

  lemma LaidSkip(fat: seq<nat>, ns: seq<nat>)
    requires Laid(fat, ns)
    ensures Laid(fat, ns + [0])
  {
    hide IsRun, Sum;
    var ms := ns + [0];
    SumSnoc(ns, 0);
    forall i | 0 <= i < |ms| && ms[i] > 0 ensures IsRun(fat, Start(ms, i), ms[i]) {
      assert ms[..i] == ns[..i];
    }
  }

  lemma SameFat(fat: seq<nat>, fat': seq<nat>, ns: seq<nat>)
    requires Laid(fat, ns) && Grown(fat, fat', FIRST_CLUSTER + Sum(ns), 0)
    ensures fat' == fat
  {
    hide IsRun, Sum, Start;
  }

  lemma LaidMore(fat: seq<nat>, fat': seq<nat>, ns: seq<nat>, n: nat)
    requires Laid(fat, ns) && Grown(fat, fat', FIRST_CLUSTER + Sum(ns), n)
    ensures |fat'| == |fat| && Laid(fat', ns + [n])
  {
    hide Laid, IsRun, Sum;
    if n == 0 {
      SameFat(fat, fat', ns);
      LaidSkip(fat, ns);
    } else {
      LaidExtend(fat, fat', ns, n);
    }
  }

  function FreeEntries(fat: seq<nat>): nat
  {
    if fat == [] then 0 else FreeEntries(fat[..|fat| - 1]) + (if fat[|fat| - 1] == 0 then 1 else 0)
  }

  lemma {:induction false} NoFreeEntries(fat: seq<nat>, k: nat)
    requires k <= |fat| && forall c :: 0 <= c < k ==> fat[c] != 0
    requires forall c :: k <= c < |fat| ==> fat[c] == 0
    ensures FreeEntries(fat) == |fat| - k
    decreases |fat|
  {
    if fat != [] {
      var f := fat[..|fat| - 1];
      NoFreeEntries(f, if k < |fat| then k else k - 1);
    }
  }

  /** Behind the last run is exactly the free space: the count of zero entries is what FSInfo states. */
  lemma FreeCount(fat: seq<nat>, ns: seq<nat>)
    requires Laid(fat, ns)
    ensures FreeEntries(fat) == |fat| - (FIRST_CLUSTER + Sum(ns))
  {
    forall c | 0 <= c < FIRST_CLUSTER + Sum(ns) ensures fat[c] != 0 {
      if c >= FIRST_CLUSTER {
        var i := RunsPartition(ns, c);
        assert IsRun(fat, Start(ns, i), ns[i]);
      }
    }
    NoFreeEntries(fat, FIRST_CLUSTER + Sum(ns));
  }

  // ---------------------------------------------------------------- following a chain

  /** The clusters a reader visits from c until the end mark; None when it has not ended after `fuel` links. */
  function Chain(fat: seq<nat>, c: nat, fuel: nat): Option<seq<nat>>
    decreases fuel
  {
    if c == 0 || c >= 0x0FFF_FFF8 then Some([])
    else if fuel == 0 || c >= |fat| then None
    else
      var rest := Chain(fat, fat[c], fuel - 1);
      if rest.None? then None else Some([c] + rest.value)
  }

  /** Following a run ends, after visiting its clusters once each and in order. */
  lemma {:induction false} ChainOfRun(fat: seq<nat>, s: nat, n: nat, fuel: nat)
    requires IsRun(fat, s, n) && s >= FIRST_CLUSTER && s + n < 0x0FFF_FFF8 && fuel >= n
    ensures Chain(fat, s, fuel) == Some(seq(n, i => s + i))
    decreases n
  {
    if n == 1 {
      assert Chain(fat, fat[s], fuel - 1) == Some([]);
      assert [s] + [] == seq(n, i => s + i);
    } else {
      assert fat[s] == s + 1;
      ChainOfRun(fat, s + 1, n - 1, fuel - 1);
      assert [s] + seq(n - 1, i => s + 1 + i) == seq(n, i => s + i);
    }
  }

  /** Following the chain of the i-th run ends and passes through cluster c. */
  predicate ChainVisits(fat: seq<nat>, ns: seq<nat>, fuel: nat, i: nat, c: nat)
  {
    && i < |ns| && ns[i] > 0
    && Chain(fat, Start(ns, i), fuel).Some?
    && c in Chain(fat, Start(ns, i), fuel).value
  }

  predicate OnSomeChain(fat: seq<nat>, ns: seq<nat>, fuel: nat, c: nat)
  {
    exists i | 0 <= i < |ns| :: ChainVisits(fat, ns, fuel, i, c)
  }

  /** The chains of all laid runs end, are disjoint, and together are the clusters 2 .. next_free-1. */
  lemma ChainsPartition(fat: seq<nat>, ns: seq<nat>, fuel: nat)
    requires Laid(fat, ns) && |fat| < 0x0FFF_FFF8 && fuel >= |fat|
    ensures forall i :: 0 <= i < |ns| && ns[i] > 0 ==>
              Chain(fat, Start(ns, i), fuel) == Some(seq(ns[i], k => Start(ns, i) + k))
    ensures forall c: nat :: OnSomeChain(fat, ns, fuel, c) <==> FIRST_CLUSTER <= c < FIRST_CLUSTER + Sum(ns)
    ensures forall i: nat, j: nat, c: nat ::
              ChainVisits(fat, ns, fuel, i, c) && ChainVisits(fat, ns, fuel, j, c) ==> i == j
  {
    forall i | 0 <= i < |ns| && ns[i] > 0
      ensures Chain(fat, Start(ns, i), fuel) == Some(seq(ns[i], k => Start(ns, i) + k))
    {
      ChainOfRun(fat, Start(ns, i), ns[i], fuel);
    }
    forall c: nat ensures OnSomeChain(fat, ns, fuel, c) <==> FIRST_CLUSTER <= c < FIRST_CLUSTER + Sum(ns) {
      if FIRST_CLUSTER <= c < FIRST_CLUSTER + Sum(ns) {
        var i := RunsPartition(ns, c);
        assert seq(ns[i], k => Start(ns, i) + k)[c - Start(ns, i)] == c;
        assert ChainVisits(fat, ns, fuel, i, c);
      }
      if i: nat :| i < |ns| && ChainVisits(fat, ns, fuel, i, c) {
        assert ns[..|ns|] == ns;
        StartsOrdered(ns, i, |ns|);
      }
    }
    forall i: nat, j: nat, c: nat | ChainVisits(fat, ns, fuel, i, c) && ChainVisits(fat, ns, fuel, j, c)
      ensures i == j
    {
      if i < j { StartsOrdered(ns, i, j); }
      if j < i { StartsOrdered(ns, j, i); }
    }
  }
}
