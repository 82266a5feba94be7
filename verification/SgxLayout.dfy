/** Commands, contexts and the ring as the host lays them out, and what the microkernel makes of them. */
module SgxLayout {
  import opened Numbers
  import opened SgxSync
  import opened SgxCommands
  import opened SgxKicks
  import opened Sgx
  import opened Wrappers

  // ---------------------------------------------------------------- what the host stores

  /** A sync object: the pending value, and where the counter is. */
  datatype SyncObject = SyncObject(pending: word, address: word)

  /** A status: where it goes, and the value. */
  datatype StatusUpdate = StatusUpdate(address: word, value: word)

  /** The list of render targets: the "in use" word's address and the sync objects. */
  datatype TargetList = TargetList(at: word, inUse: word, syncs: seq<SyncObject>)

  /** The 3D part of a render. */
  datatype Scene = Scene(sync: SyncObject, dependency: Option<SyncObject>, targets: Option<TargetList>,
                         statuses: seq<StatusUpdate>)

  datatype TaOrder = TaOrder(size: word, ready: bool, sources: seq<SyncObject>, sync: SyncObject,
                                         statuses: seq<StatusUpdate>, scene: Option<Scene>)

  predicate SyncAt(m: Mem, pd: nat, a: nat, o: SyncObject)
  {
    Word(m, pd, a) == o.pending && Word(m, pd, a + 4) == o.address
  }

  predicate SyncsAt(m: Mem, pd: nat, a: nat, os: seq<SyncObject>)
  {
    forall i :: 0 <= i < |os| ==> SyncAt(m, pd, a + 16 * i, os[i])
  }

  predicate StatusesAt(m: Mem, pd: nat, a: nat, us: seq<StatusUpdate>)
  {
    forall i :: 0 <= i < |us| ==> StatusAt(m, pd, a + 8 * i, us[i])
  }

  predicate StatusAt(m: Mem, pd: nat, a: nat, u: StatusUpdate)
  {
    Word(m, pd, a) == u.address && Word(m, pd, a + 4) == u.value
  }

  /** A count of n, or of more than can be looked at. */
  predicate Counts(m: Mem, pd: nat, a: nat, n: nat, most: nat)
  {
    n <= most && (n == Word(m, pd, a) || (n == most && Word(m, pd, a) > most))
  }

  /** A TA command at cmd, field by field. Its shared part starts at 0x50. */
  predicate TaAt(m: Mem, pd: nat, cmd: nat, k: TaOrder)
  {
    && Word(m, pd, cmd) == k.size && (k.ready <==> Digit(Word(m, pd, cmd + 0x50), 0) == 1)
    && Counts(m, pd, cmd + 0x7c, |k.sources|, 8) && SyncsAt(m, pd, cmd + 0x80, k.sources)
    && SyncAt(m, pd, cmd + 0x64, k.sync)
    && Counts(m, pd, cmd + 0x54, |k.statuses|, 32) && StatusesAt(m, pd, cmd + 0x110, k.statuses)
    && (k.scene.Some? <==> Digit(Word(m, pd, cmd + 4), 1) == 1)
    && (k.scene.Some? ==> SceneAt(m, pd, cmd, k.scene.value))
  }

  predicate SceneAt(m: Mem, pd: nat, cmd: nat, s: Scene)
  {
    && SyncAt(m, pd, cmd + 0x74, s.sync)
    && (s.dependency.Some? <==> Digit(Word(m, pd, cmd + 4), 9) == 1)
    && (s.dependency.Some? ==> SyncAt(m, pd, cmd + 0x108, s.dependency.value))
    && (s.targets.Some? <==> Word(m, pd, cmd + 0x3c) != 0)
    && (s.targets.Some? ==> s.targets.value.at == Word(m, pd, cmd + 0x3c) && TargetsAt(m, pd, s.targets.value))
    && Counts(m, pd, cmd + 0x58, |s.statuses|, 4) && StatusesAt(m, pd, cmd + 0x210, s.statuses)
  }

  predicate TargetsAt(m: Mem, pd: nat, t: TargetList)
  {
    Word(m, pd, t.at) == t.inUse && Counts(m, pd, t.at + 4, |t.syncs|, 16) && SyncsAt(m, pd, t.at + 16, t.syncs)
  }

  datatype TransferOrder = TransferOrder(size: word, sources: seq<SyncObject>, destinations: seq<SyncObject>,
                                       ta: SyncObject, scene: SyncObject, statuses: seq<StatusUpdate>)

  /** A transfer command at cmd. Its shared part starts at 0x78. */
  predicate TransferAt(m: Mem, pd: nat, cmd: nat, k: TransferOrder)
  {
    && Word(m, pd, cmd + 0x70) == k.size
    && Counts(m, pd, cmd + 0x78, |k.sources|, 8) && SyncsAt(m, pd, cmd + 0x7c, k.sources)
    && Counts(m, pd, cmd + 0xfc, |k.destinations|, 1) && SyncsAt(m, pd, cmd + 0x108, k.destinations)
    && SyncAt(m, pd, cmd + 0x110, k.ta) && SyncAt(m, pd, cmd + 0x120, k.scene)
    && Counts(m, pd, cmd + 0x130, |k.statuses|, 4) && StatusesAt(m, pd, cmd + 0x134, k.statuses)
  }

  // ---------------------------------------------------------------- what it wants by it

  function Advances(pd: nat, os: seq<SyncObject>): (ds: seq<Demand>)
    ensures |ds| == |os| && forall i :: 0 <= i < |os| ==> ds[i] == Advance(At(pd, os[i].address), os[i].pending)
  {
    seq(|os|, i requires 0 <= i < |os| => Advance(At(pd, os[i].address), os[i].pending))
  }

  function Leaves(pd: nat, us: seq<StatusUpdate>): (ds: seq<Demand>)
    ensures |ds| == |us| && forall i :: 0 <= i < |us| ==> ds[i] == Leave(At(pd, us[i].address), us[i].value)
  {
    seq(|us|, i requires 0 <= i < |us| => Leave(At(pd, us[i].address), us[i].value))
  }

  /** The render target is free again, and the word eight bytes below, if there is one. */
  function Freed(pd: nat, inUse: word): seq<Demand>
  {
    [Leave(At(pd, inUse), 0), if inUse == 0 then Leave(At(pd, 0), 0) else TakeBack(At(pd, 0xFFFF_FFF8 + inUse as nat))]
  }

  function Wanted(pd: nat, k: TaOrder): seq<Demand>
  {
    Advances(pd, k.sources) + Advances(pd, [k.sync]) + Leaves(pd, k.statuses)
    + if k.scene.Some? then WantedOfScene(pd, k.scene.value) else []
  }

  function WantedOfScene(pd: nat, s: Scene): seq<Demand>
  {
    Advances(pd, [s.sync])
    + (if s.dependency.Some? then Advances(pd, [s.dependency.value]) else [])
    + (if s.targets.Some? then Advances(pd, s.targets.value.syncs) + Freed(pd, s.targets.value.inUse) else [])
    + Leaves(pd, s.statuses)
  }

  function WantedOfTransfer(pd: nat, k: TransferOrder): seq<Demand>
  {
    Advances(pd, k.sources) + Advances(pd, k.destinations) + Advances(pd, [k.ta, k.scene]) + Leaves(pd, k.statuses)
  }

  // ---------------------------------------------------------------- is what the microkernel reads

  lemma DemandsOfBoth(m: Mem, pd: nat, a: seq<Slot>, b: seq<Slot>)
    ensures Demands(m, pd, a + b) == Demands(m, pd, a) + Demands(m, pd, b)
  {
    hide DemandOf;
  }

  lemma SyncsRead(m: Mem, pd: nat, a: nat, os: seq<SyncObject>)
    requires SyncsAt(m, pd, a, os)
    ensures Demands(m, pd, Syncs(a, |os|)) == Advances(pd, os)
  {
    hide At, Rd;
    forall i | 0 <= i < |os| ensures Demands(m, pd, Syncs(a, |os|))[i] == Advances(pd, os)[i] {
      assert SyncAt(m, pd, a + 16 * i, os[i]);
    }
  }

  lemma SyncRead(m: Mem, pd: nat, a: nat, o: SyncObject)
    requires SyncAt(m, pd, a, o)
    ensures Demands(m, pd, [Sync(a, a + 4)]) == Advances(pd, [o])
  {
    hide At, Rd;
  }

  lemma StatusesRead(m: Mem, pd: nat, a: nat, us: seq<StatusUpdate>)
    requires StatusesAt(m, pd, a, us)
    ensures Demands(m, pd, Statuses(a, |us|)) == Leaves(pd, us)
  {
    hide At, Rd;
    forall i | 0 <= i < |us| ensures Demands(m, pd, Statuses(a, |us|))[i] == Leaves(pd, us)[i] {
      assert StatusAt(m, pd, a + 8 * i, us[i]);
    }
  }

  lemma FreedRead(m: Mem, pd: nat, t: TargetList)
    requires TargetsAt(m, pd, t)
    ensures Demands(m, pd, [Release(t.at), Mark(t.at)]) == Freed(pd, t.inUse)
  {
    assert At(pd, t.inUse).dva == t.inUse;
  }

  lemma BitIsDigit(x: nat)
    ensures Bit(x, 1) <==> Digit(x, 0) == 1
    ensures Bit(x, 2) <==> Digit(x, 1) == 1
    ensures Bit(x, 0x200) <==> Digit(x, 9) == 1
  {
    hide Digit, Pow2;
    Powers();
    DigitAt(x, 0);
    DigitAt(x, 1);
    DigitAt(x, 9);
  }

  lemma TargetsRead(m: Mem, pd: nat, t: TargetList)
    requires TargetsAt(m, pd, t) && t.at != 0
    ensures Demands(m, pd, TargetSlots(m, pd, t.at)) == Advances(pd, t.syncs) + Freed(pd, t.inUse)
  {
    hide DemandOf, Syncs, Freed, SyncsAt;
    SyncsRead(m, pd, t.at + 16, t.syncs);
    FreedRead(m, pd, t);
    DemandsOfBoth(m, pd, Syncs(t.at + 16, |t.syncs|), [Release(t.at), Mark(t.at)]);
  }

  lemma SceneRead(m: Mem, pd: nat, cmd: nat, s: Scene)
    requires SceneAt(m, pd, cmd, s)
    ensures Demands(m, pd, RenderSlots(m, pd, cmd, Word(m, pd, cmd + 4))) == WantedOfScene(pd, s)
  {
    hide DemandOf, Syncs, Statuses, Freed, SyncsAt, StatusesAt, SyncAt, TargetsAt, TargetSlots, Digit, Bit;
    BitIsDigit(Word(m, pd, cmd + 4));
    var one := [Sync(cmd + 0x74, cmd + 0x78)];
    var two := if s.dependency.Some? then [Sync(cmd + 0x108, cmd + 0x10c)] else [];
    var three := TargetSlots(m, pd, Word(m, pd, cmd + 0x3c));
    var four := Statuses(cmd + 0x210, |s.statuses|);
    assert RenderSlots(m, pd, cmd, Word(m, pd, cmd + 4)) == one + two + three + four;
    SyncRead(m, pd, cmd + 0x74, s.sync);
    if s.dependency.Some? { SyncRead(m, pd, cmd + 0x108, s.dependency.value); }
    if s.targets.Some? { TargetsRead(m, pd, s.targets.value); } else { NoTargets(m, pd); }
    StatusesRead(m, pd, cmd + 0x210, s.statuses);
    DemandsOfBoth(m, pd, one, two);
    DemandsOfBoth(m, pd, one + two, three);
    DemandsOfBoth(m, pd, one + two + three, four);
  }

  lemma NoTargets(m: Mem, pd: nat)
    ensures TargetSlots(m, pd, 0) == [] && Demands(m, pd, []) == []
  {
  }

  /** From a TA command the microkernel takes exactly what the host wants by it. */
  lemma TaRead(m: Mem, pd: nat, cmd: nat, k: TaOrder)
    requires TaAt(m, pd, cmd, k)
    ensures Demands(m, pd, TaSlots(m, pd, cmd)) == Wanted(pd, k)
  {
    hide DemandOf, Syncs, Statuses, SyncsAt, StatusesAt, SyncAt, SceneAt, RenderSlots, WantedOfScene, Digit, Bit;
    BitIsDigit(Word(m, pd, cmd + 4));
    var one := Syncs(cmd + 0x80, |k.sources|);
    var two := [Sync(cmd + 0x64, cmd + 0x68)];
    var three := Statuses(cmd + 0x110, |k.statuses|);
    var four := if k.scene.Some? then RenderSlots(m, pd, cmd, Word(m, pd, cmd + 4)) else [];
    assert TaSlots(m, pd, cmd) == one + two + three + four;
    SyncsRead(m, pd, cmd + 0x80, k.sources);
    SyncRead(m, pd, cmd + 0x64, k.sync);
    StatusesRead(m, pd, cmd + 0x110, k.statuses);
    if k.scene.Some? { SceneRead(m, pd, cmd, k.scene.value); }
    DemandsOfBoth(m, pd, one, two);
    DemandsOfBoth(m, pd, one + two, three);
    DemandsOfBoth(m, pd, one + two + three, four);
  }

  /** And from a transfer command. */
  lemma TransferRead(m: Mem, pd: nat, cmd: nat, k: TransferOrder)
    requires TransferAt(m, pd, cmd, k)
    ensures Demands(m, pd, TransferSlots(m, pd, cmd)) == WantedOfTransfer(pd, k)
  {
    hide DemandOf, Syncs, Statuses, SyncsAt, StatusesAt, SyncAt;
    var one, two := Syncs(cmd + 0x7c, |k.sources|), Syncs(cmd + 0x108, |k.destinations|);
    var three, four := [Sync(cmd + 0x110, cmd + 0x114)], [Sync(cmd + 0x120, cmd + 0x124)];
    var five := Statuses(cmd + 0x134, |k.statuses|);
    assert TransferSlots(m, pd, cmd) == one + two + (three + four) + five;
    SyncsRead(m, pd, cmd + 0x7c, k.sources);
    SyncsRead(m, pd, cmd + 0x108, k.destinations);
    SyncRead(m, pd, cmd + 0x110, k.ta);
    SyncRead(m, pd, cmd + 0x120, k.scene);
    StatusesRead(m, pd, cmd + 0x134, k.statuses);
    assert Advances(pd, [k.ta, k.scene]) == Advances(pd, [k.ta]) + Advances(pd, [k.scene]);
    DemandsOfBoth(m, pd, one, two);
    DemandsOfBoth(m, pd, three, four);
    DemandsOfBoth(m, pd, one + two, three + four);
    DemandsOfBoth(m, pd, one + two + (three + four), five);
  }

  /** A TA command advances a counter that shows its pending value, and that the host wants advanced once, by one. */
  lemma TaAdvances(q: Queue, m: Mem, rd: nat, R: set<Loc>, k: TaOrder, l: Loc, p: word)
    requires !q.transfer && TaAt(m, q.pd, q.base + rd, k) && HoldsCommand(m, q.pd, q.base + rd, R)
    requires forall i :: 0 <= i < |Wanted(q.pd, k)| ==> Wanted(q.pd, k)[i].l !in R
    requires CounterOnly(Wanted(q.pd, k), l) && PendingFor(Wanted(q.pd, k), l) == [p]
    requires l in m && l.dva != 0 && Rd(m, l) == p
    ensures Rd(TaCommand(m, q.pd, q.base + rd), l) == (p as nat + 1) % 0x1_0000_0000
  {
    hide TaAt, HoldsCommand, Wanted, PendingFor, CounterOnly, TaCommand, TaSlots, Rd, DemandOf, Asked;
    var ss := TaSlots(m, q.pd, q.base + rd);
    TaRead(m, q.pd, q.base + rd, k);
    forall i | 0 <= i < |ss| ensures AskedAll(m, q.pd, ss)[i].l !in R {
      AskedMeets(m, q.pd, ss[i]);
      assert Demands(m, q.pd, ss)[i].l !in R;
    }
    CommandAdvances(q, m, rd, R, l, p);
  }

  // ---------------------------------------------------------------- queues

  /** A TA command is taken exactly when it is ready and between 1 and 0x10000 bytes long; the next follows it. */
  lemma TaTaken(q: Queue, m: Mem, rd: nat, k: TaOrder)
    requires !q.transfer && TaAt(m, q.pd, q.base + rd, k)
    ensures Ready(q, m, rd) <==> k.ready && 1 <= k.size <= 65536
    ensures Next(q, m, rd) == (rd + k.size) % 65536
  {
    hide Digit, SceneAt;
    BitIsDigit(Word(m, q.pd, q.base + rd + 0x50));
  }

  /** A transfer command always is; of a size that is no multiple of 64 up to 0x10000 it counts as 0x180 bytes. */
  lemma TransferTaken(q: Queue, m: Mem, rd: nat, k: TransferOrder)
    requires q.transfer && TransferAt(m, q.pd, q.base + rd, k)
    ensures Ready(q, m, rd)
    ensures Next(q, m, rd)
         == (rd + if 0 < k.size <= 65536 && k.size % 64 == 0 then k.size as nat else 384) % 65536
  {
  }

  /** A hardware context: the directory of its client, and the queue's buffer and control block. */
  predicate ContextAt(m: Mem, kernelPd: nat, context: nat, pd: word, base: word, ctl: word)
  {
    Word(m, kernelPd, context + 8) == pd && Word(m, kernelPd, context + 12) == base
    && Word(m, kernelPd, context + 16) == ctl
  }

  /** Its queue is looked for there, under the kernel's directory if it has none of its own. */
  lemma ContextRead(m: Mem, kernelPd: nat, transfer: bool, context: nat, pd: word, base: word, ctl: word, a: nat)
    requires ContextAt(m, kernelPd, context, pd, base, ctl)
    ensures var q := ClientQueue(m, kernelPd, transfer, context);
            && q.transfer == transfer && q.base == base && q.ctl == ctl
            && At(q.pd, a) == At(if pd == 0 then kernelPd else pd, a)
  {
  }

  /** After a TA kick the context is no longer marked new, and nothing else differs from what its queue asks for. */
  lemma KickUnmarks(m: Mem, kernelPd: nat, context: nat)
    requires At(kernelPd, context) in m
    ensures var done := Kick(ClientQueue(m, kernelPd, false, context), m, 64);
            var after := TaKick(m, kernelPd, context);
            && (Digit(Word(m, kernelPd, context), 0) == 0 ==> after == done)
            && (Digit(Word(m, kernelPd, context), 0) == 1 ==>
                  after == done[At(kernelPd, context) := Word(m, kernelPd, context) - 1])
    ensures TransferKick(m, kernelPd, context) == Kick(ClientQueue(m, kernelPd, true, context), m, 64)
  {
    hide Kick, ClientQueue;
    KickKeepsKeys(ClientQueue(m, kernelPd, false, context), m);
  }

  lemma KickKeepsKeys(q: Queue, m: Mem)
    ensures Kick(q, m, 64).Keys == m.Keys
  {
  }

  // ---------------------------------------------------------------- the ring and the host control block

  /** The kernel's ring as the driver's private data describes it. */
  predicate RingKept(c: CpuMem, devinfo: nat, info: word, base: word, wp: word, rp: word)
  {
    && Ldr(c, devinfo + 64) == info
    && Ldr(c, info + 8) == base && Ldr(c, info + 12) == wp && Ldr(c, info + 16) == rp
  }

  predicate Usable(p: word) { 0x8000_0000 <= p < 0xFFFF_FFFF }

  /** It is found exactly when all its pointers are usable, with the low bytes of its offsets. */
  lemma RingFound(c: CpuMem, devinfo: nat, info: word, base: word, wp: word, rp: word)
    requires RingKept(c, devinfo, info, base, wp, rp)
    ensures RingAt(c, devinfo)
         == if Usable(info) && Usable(base) && Usable(wp) && Usable(rp)
            then Some(Ring(base, rp, Ldr(c, rp) % 256, Ldr(c, wp) % 256)) else None
  {
  }

  /** A command is the first of the eleven kinds whose kick address it carries; an address of 0 is none. */
  lemma {:induction false} KindFound(c: CpuMem, devinfo: nat, svc: word, i: nat)
    requires i <= 11
    ensures var t := TypeFrom(c, devinfo, svc, i);
            && (t < 11 ==> svc != 0 && Ldr(c, devinfo + 0x58 + 4 * t) == svc)
            && (forall j :: i <= j < t && svc != 0 ==> Ldr(c, devinfo + 0x58 + 4 * j) != svc)
    decreases 11 - i
  {
    hide Ldr;
    if i < 11 { KindFound(c, devinfo, svc, i + 1); }
  }

  lemma {:induction false} DigitSet(x: nat, i: nat, j: nat)
    requires Digit(x, i) == 0
    ensures Digit(x + Pow2(i), j) == if j == i then 1 else Digit(x, j)
    decreases i
  {
    if i == 0 {
      assert (x + 1) / 2 == x / 2;
    } else {
      assert (x + Pow2(i)) / 2 == x / 2 + Pow2(i - 1);
      assert (x + Pow2(i)) % 2 == x % 2;
      if j > 0 { DigitSet(x / 2, i - 1, j - 1); }
    }
  }

  /** Setting a bit of a word sets that bit alone. */
  lemma BitSet(x: word, i: nat, j: nat)
    requires i in {0, 2, 3}
    ensures var y := WithBit(x, if i == 0 then 1 else if i == 2 then 4 else 8);
            Digit(y, j) == if j == i then 1 else Digit(x, j)
  {
    var w := if i == 0 then 1 else if i == 2 then 4 else 8;
    Powers();
    DigitAt(x, i);
    if Digit(x, i) == 0 {
      DigitSet(x, i, j);
      NoCarry(x, w);
    }
  }

  lemma NoCarry(x: word, w: nat)
    requires w in {1, 4, 8} && x / w % 2 == 0
    ensures x as nat + w < 0x1_0000_0000
  {
  }

  /** The word of the host control block a request sets a bit in, and the bit: power off, idle, clean-up. */
  function AnswerBit(t: nat, arg: word): Option<(nat, nat)>
  {
    if t == 3 && arg == 1 then Some((4, 3)) else if t == 3 && arg == 2 then Some((4, 2))
    else if t == 5 then Some((8, 0)) else None
  }

  /** Only those requests are answered there, and only that bit changes. */
  lemma AnswerIs(c: CpuMem, hostctl: word, t: nat, arg: word, a: nat, j: nat)
    requires Usable(hostctl) && a < 0x1_0000_0000 && a in c && hostctl as nat + 8 < 0x1_0000_0000
    ensures var b, d := AnswerBit(t, arg), Answered(c, hostctl, t, arg);
            && d.Keys == c.Keys
            && Digit(d[a], j)
               == if b.Some? && a == hostctl + b.value.0 && j == b.value.1 then 1 else Digit(c[a], j)
  {
    hide Digit, WithBit;
    BitSet(c[a], 0, j);
    BitSet(c[a], 2, j);
    BitSet(c[a], 3, j);
  }

  /** In answer to a command, by its fourth word; the block is where the driver's private data says. */
  lemma CommandAnswers(d: Device, kernelPd: nat, devinfo: nat, e: seq<word>, a: nat, j: nat)
    requires |e| == 8 && Usable(Ldr(d.cpu, devinfo + 2008)) && Ldr(d.cpu, devinfo + 2008) as nat + 8 < 0x1_0000_0000
    requires a < 0x1_0000_0000 && a in d.cpu
    ensures var b, hostctl := AnswerBit(TypeFrom(d.cpu, devinfo, e[0], 0), e[3]), Ldr(d.cpu, devinfo + 2008);
            var after := Effect(d, kernelPd, devinfo, e).cpu;
            && a in after
            && Digit(after[a], j)
               == if b.Some? && a == hostctl as nat + b.value.0 && j == b.value.1 then 1 else Digit(d.cpu[a], j)
  {
    hide Digit, Answered, TypeFrom;
    AnswerIs(d.cpu, Ldr(d.cpu, devinfo + 2008), TypeFrom(d.cpu, devinfo, e[0], 0), e[3], a, j);
  }

  /** A command of eight words in one of the ring's slots of 32 bytes. */
  predicate SlotHolds(c: CpuMem, base: nat, slot: nat, e: seq<word>)
  {
    |e| == 8 && forall i :: 0 <= i < 8 ==> Ldr(c, base + 32 * slot + 4 * i) == e[i]
  }

  /** The first slot's command is carried out first, and the others see what it leaves. */
  lemma SlotTaken(d: Device, kernelPd: nat, devinfo: nat, base: nat, slots: seq<nat>, e: seq<word>)
    requires slots != [] && SlotHolds(d.cpu, base, slots[0], e)
    ensures Work(d, kernelPd, devinfo, base, slots)
         == Work(Effect(d, kernelPd, devinfo, e), kernelPd, devinfo, base, slots[1..])
  {
    hide Ldr, Effect;
    assert SlotWords(d.cpu, base + slots[0] * 32) == e;
  }
}
