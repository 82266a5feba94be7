/** The fake microkernel as the program runs it: its ring, its commands and its client queues. */
module Sgx {
  import opened Numbers
  import opened SgxSync
  import opened SgxCommands
  import opened SgxKicks
  import opened Wrappers

  // ---------------------------------------------------------------- the kernel's ring

  function Distance(r: nat, w: nat): (d: nat)
    ensures d < 256
  {
    (w - r) % 256
  }

  /** The slots from r up to but not including w, around the ring. */
  function Slots(r: nat, w: nat): (ss: seq<nat>)
    requires r < 256 && w < 256
    ensures |ss| == Distance(r, w)
    decreases Distance(r, w)
  {
    if r == w then [] else [r] + Slots((r + 1) % 256, w)
  }

  /** They are consecutive and none occurs twice. */
  lemma {:induction false} SlotsAt(r: nat, w: nat, i: nat)
    requires r < 256 && w < 256 && i < Distance(r, w)
    ensures Slots(r, w)[i] == (r + i) % 256
    ensures forall j :: 0 <= j < i ==> Slots(r, w)[j] != Slots(r, w)[i]
    decreases i
  {
    hide Distance;
    DistanceHere(r);
    if i > 0 {
      DistanceStep(r, w);
      SlotsAt((r + 1) % 256, w, i - 1);
      StepMod(r, i);
      assert forall j :: 1 <= j < i ==> Slots(r, w)[j] == Slots((r + 1) % 256, w)[j - 1];
    }
  }

  lemma DistanceHere(r: nat)
    ensures Distance(r, r) == 0
  {
  }

  lemma StepMod(r: nat, i: nat)
    requires r < 256 && i > 0
    ensures ((r + 1) % 256 + (i - 1)) % 256 == (r + i) % 256
  {
  }

  /** The kernel's own memory; unmapped words read as zero. */
  type CpuMem = map<nat, word>

  function Ldr(c: CpuMem, a: nat): word
  {
    if a % 0x1_0000_0000 in c then c[a % 0x1_0000_0000] else 0
  }

  function Str(c: CpuMem, a: nat, v: word): (c': CpuMem)
    ensures c'.Keys == c.Keys
  {
    if a % 0x1_0000_0000 in c then c[a % 0x1_0000_0000 := v] else c
  }

  predicate PtrOk(p: nat) { 0x8000_0000 <= p < 0x1_0000_0000 && p != 0xFFFF_FFFF }

  function WithBit(x: word, weight: nat): (y: word)
    requires weight in {1, 4, 8}
  {
    if Bit(x, weight) then x else (x + weight) % 0x1_0000_0000
  }

  /** Which of the eleven commands a service address stands for; 11 for none. */
  function TypeFrom(c: CpuMem, devinfo: nat, svc: word, i: nat): (t: nat)
    requires i <= 11
    ensures i <= t <= 11
    decreases 11 - i
  {
    if i == 11 || (svc == Ldr(c, devinfo + 0x58 + 4 * i) && svc != 0) then i else TypeFrom(c, devinfo, svc, i + 1)
  }

  /** What power and clean-up requests leave in the host control block. */
  function Answered(c: CpuMem, hostctl: nat, t: nat, arg: word): (c': CpuMem)
    ensures c'.Keys == c.Keys
  {
    if !PtrOk(hostctl) then c
    else if t == 3 && arg == 1 then Str(c, hostctl + 4, WithBit(Ldr(c, hostctl + 4), 8))
    else if t == 3 && arg == 2 then Str(c, hostctl + 4, WithBit(Ldr(c, hostctl + 4), 4))
    else if t == 5 then Str(c, hostctl + 8, WithBit(Ldr(c, hostctl + 8), 1))
    else c
  }

  /** The queue a hardware context describes; without a directory of its own it uses the kernel's. */
  function ClientQueue(m: Mem, kernelPd: nat, transfer: bool, context: nat): Queue
  {
    var own := Word(m, kernelPd, context + 8);
    Queue(transfer, if own != 0 then own else kernelPd - kernelPd % 0x1000,
          Word(m, kernelPd, context + 0xc), Word(m, kernelPd, context + 0x10))
  }

  /** A TA kick; afterwards the context is no longer marked new. */
  function TaKick(m: Mem, kernelPd: nat, context: nat): Mem
  {
    var flags, done := Word(m, kernelPd, context), Kick(ClientQueue(m, kernelPd, false, context), m, MOST);
    if Bit(flags, 1) then Wr(done, At(kernelPd, context), flags - 1) else done
  }

  function TransferKick(m: Mem, kernelPd: nat, context: nat): Mem
  {
    Kick(ClientQueue(m, kernelPd, true, context), m, MOST)
  }

  /** The first n version words, copied behind one another. */
  function Versions(m: Mem, c: CpuMem, pd: nat, devinfo: nat, block: nat, n: nat): (m': Mem)
    ensures m'.Keys == m.Keys
  {
    if n == 0 then m
    else
      Wr(Versions(m, c, pd, devinfo, block, n - 1), At(pd, block + 0x20 + 4 * (n - 1)),
         Ldr(c, devinfo + 0x9c + 4 * (n - 1)))
  }

  /** Revisions, and a word of the block handed back. */
  function MiscHead(m: Mem, c: CpuMem, pd: nat, devinfo: nat, block: nat): (m': Mem)
    ensures m'.Keys == m.Keys
  {
    var m1 := Wr(Wr(m, At(pd, block + 0xc), 0x10711), At(pd, block + 0x10), 0xd3e39);
    Wr(Wr(m1, At(pd, block + 0x18), Word(m1, pd, block + 4)), At(pd, block + 0x1c), Ldr(c, devinfo + 0x98))
  }

  /** The answer to a request for information, and the mark that it is there. */
  function MiscInfo(m: Mem, c: CpuMem, pd: nat, devinfo: nat, block: nat): (m': Mem)
    ensures m'.Keys == m.Keys
  {
    if At(pd, block) !in m then m
    else
      var all := Versions(MiscHead(m, c, pd, devinfo, block), c, pd, devinfo, block, 13);
      Wr(all, At(pd, block), WithBit(Word(all, pd, block), 1))
  }

  /** Words of one block are told apart by their offsets. */
  predicate InBlock(m: Mem, pd: nat, block: nat)
  {
    block + 0x54 <= 0x1_0000_0000 && forall k :: 0 <= k < 21 ==> At(pd, block + 4 * k) in m
  }

  lemma WordAfter(m: Mem, pd: nat, block: nat, j: nat, v: word, k: nat)
    requires InBlock(m, pd, block) && j < 21 && k < 21
    ensures InBlock(Wr(m, At(pd, block + 4 * j), v), pd, block)
    ensures Word(Wr(m, At(pd, block + 4 * j), v), pd, block + 4 * k) == if j == k then v else Word(m, pd, block + 4 * k)
  {
    assert At(pd, block + 4 * j) in m;
    assert (block + 4 * j) % 0x1_0000_0000 == block + 4 * j && (block + 4 * k) % 0x1_0000_0000 == block + 4 * k;
  }

  lemma {:induction false} VersionsAt(m: Mem, c: CpuMem, pd: nat, devinfo: nat, block: nat, n: nat, k: nat)
    requires InBlock(m, pd, block) && n <= 13 && k < 21
    ensures InBlock(Versions(m, c, pd, devinfo, block, n), pd, block)
    ensures Word(Versions(m, c, pd, devinfo, block, n), pd, block + 4 * k)
         == if 8 <= k < 8 + n then Ldr(c, devinfo + 0x9c + 4 * (k - 8)) else Word(m, pd, block + 4 * k)
    decreases n
  {
    hide Wr, Word, At, InBlock, Ldr;
    if n > 0 {
      VersionsAt(m, c, pd, devinfo, block, n - 1, k);
      WordAfter(Versions(m, c, pd, devinfo, block, n - 1), pd, block, 7 + n, Ldr(c, devinfo + 0x9c + 4 * (n - 1)), k);
      assert block + 4 * (7 + n) == block + 0x20 + 4 * (n - 1);
    }
  }

  lemma MiscHeadAt(m: Mem, c: CpuMem, pd: nat, devinfo: nat, block: nat, k: nat)
    requires InBlock(m, pd, block) && k < 21
    ensures var m' := MiscHead(m, c, pd, devinfo, block);
            && InBlock(m', pd, block) && Word(m', pd, block) == Word(m, pd, block)
            && Word(m', pd, block + 4 * k)
               == if k == 3 then 0x10711 else if k == 4 then 0xd3e39 else if k == 6 then Word(m, pd, block + 4)
                  else if k == 7 then Ldr(c, devinfo + 0x98) else Word(m, pd, block + 4 * k)
  {
    hide Wr, Word, At, InBlock, Ldr;
    var m1 := Wr(m, At(pd, block + 0xc), 0x10711);
    var m2 := Wr(m1, At(pd, block + 0x10), 0xd3e39);
    var m3 := Wr(m2, At(pd, block + 0x18), Word(m2, pd, block + 4));
    TwoAfter(m, pd, block, 3, 0x10711, k);
    TwoAfter(m1, pd, block, 4, 0xd3e39, k);
    TwoAfter(m2, pd, block, 6, Word(m2, pd, block + 4), k);
    TwoAfter(m3, pd, block, 7, Ldr(c, devinfo + 0x98), k);
  }

  /** The host finds the revisions, the word it left in the block, thirteen versions and the mark. */
  lemma MiscInfoAnswers(m: Mem, c: CpuMem, pd: nat, devinfo: nat, block: nat, k: nat)
    requires InBlock(m, pd, block) && k < 21
    ensures Word(MiscInfo(m, c, pd, devinfo, block), pd, block + 4 * k)
         == if k == 0 then WithBit(Word(m, pd, block), 1)
            else if k == 3 then 0x10711
            else if k == 4 then 0xd3e39
            else if k == 6 then Word(m, pd, block + 4)
            else if k == 7 then Ldr(c, devinfo + 0x98)
            else if k >= 8 then Ldr(c, devinfo + 0x9c + 4 * (k - 8))
            else Word(m, pd, block + 4 * k)
  {
    FirstMapped(m, pd, block);
    hide Wr, Word, At, InBlock, Ldr, WithBit, Versions, MiscHead;
    var head := MiscHead(m, c, pd, devinfo, block);
    var all := Versions(head, c, pd, devinfo, block, 13);
    MiscHeadAt(m, c, pd, devinfo, block, k);
    VersionsAt(head, c, pd, devinfo, block, 13, k);
    VersionsAt(head, c, pd, devinfo, block, 13, 0);
    assert block + 4 * 0 == block;
    TwoAfter(all, pd, block, 0, WithBit(Word(all, pd, block), 1), k);
  }

  /** A word of the block after a write to it, and its first two. */
  lemma TwoAfter(m: Mem, pd: nat, block: nat, j: nat, v: word, k: nat)
    requires InBlock(m, pd, block) && j < 21 && k < 21
    ensures var m' := Wr(m, At(pd, block + 4 * j), v);
            && InBlock(m', pd, block)
            && Word(m', pd, block + 4 * k) == (if j == k then v else Word(m, pd, block + 4 * k))
            && (j != 0 ==> Word(m', pd, block) == Word(m, pd, block))
            && (j != 1 ==> Word(m', pd, block + 4) == Word(m, pd, block + 4))
  {
    hide Wr, Word, At, InBlock;
    WordAfter(m, pd, block, j, v, k);
    WordAfter(m, pd, block, j, v, 0);
    WordAfter(m, pd, block, j, v, 1);
    assert block + 4 * 0 == block && block + 4 * 1 == block + 4;
  }

  lemma FirstMapped(m: Mem, pd: nat, block: nat)
    requires InBlock(m, pd, block)
    ensures At(pd, block) in m
  {
    assert At(pd, block + 4 * 0) in m;
  }

  // ---------------------------------------------------------------- what the ring asks for

  /** What a command can change: device memory and the kernel's own. */
  datatype Device = Device(mem: Mem, cpu: CpuMem)

  /** One command. Which one it is, and where it answers, is looked up when its turn comes. */
  function Effect(d: Device, kernelPd: nat, devinfo: nat, e: seq<word>): (d': Device)
    requires |e| == 8
    ensures d'.cpu.Keys == d.cpu.Keys
  {
    var t := TypeFrom(d.cpu, devinfo, e[0], 0);
    Device(if t == 0 then TaKick(d.mem, kernelPd, e[3])
           else if t == 1 then TransferKick(d.mem, kernelPd, e[3])
           else if t == 6 then MiscInfo(d.mem, d.cpu, kernelPd, devinfo, e[3])
           else d.mem,
           Answered(d.cpu, Ldr(d.cpu, devinfo + 0x7d8), t, e[3]))
  }

  function SlotWords(c: CpuMem, at: nat): (e: seq<word>)
    ensures |e| == 8 && forall i :: 0 <= i < 8 ==> e[i] == Ldr(c, at + 4 * i)
  {
    seq(8, i requires 0 <= i < 8 => Ldr(c, at + 4 * i))
  }

  /** The commands in the slots, one after another, each read as the ones before it leave memory. */
  function Work(d: Device, kernelPd: nat, devinfo: nat, base: nat, slots: seq<nat>): (d': Device)
    ensures d'.cpu.Keys == d.cpu.Keys
    decreases |slots|
  {
    if slots == [] then d
    else
      var next := Effect(d, kernelPd, devinfo, SlotWords(d.cpu, base + slots[0] * 32));
      Work(next, kernelPd, devinfo, base, slots[1..])
  }

  /** Where the ring lies, where its read offset is kept, and both offsets. */
  datatype Ring = Ring(base: nat, rp: nat, start: nat, end: nat)

  function RingAt(c: CpuMem, devinfo: nat): (r: Option<Ring>)
    ensures r.Some? ==> r.value.start < 256 && r.value.end < 256
  {
    var info := Ldr(c, devinfo + 0x40);
    var base, wp, rp := Ldr(c, info + 8), Ldr(c, info + 0xc), Ldr(c, info + 0x10);
    if PtrOk(info) && PtrOk(base) && PtrOk(wp) && PtrOk(rp)
    then Some(Ring(base, rp, Ldr(c, rp) % 256, Ldr(c, wp) % 256)) else None
  }

  /** All that is in the ring, and the read offset moved. */
  function Consumed(d: Device, kernelPd: nat, devinfo: nat): Device
  {
    match RingAt(d.cpu, devinfo)
    case None => d
    case Some(r) =>
      var done := Work(d, kernelPd, devinfo, r.base, Slots(r.start, r.end));
      done.(cpu := Str(done.cpu, r.rp, r.end))
  }

  class Microkernel {
    const kernelPd: nat
    var mem: Mem
    var cpu: CpuMem
    var events: nat

    constructor (pd: nat, m: Mem, c: CpuMem)
      ensures kernelPd == pd && mem == m && cpu == c && events == 0
    {
      kernelPd, mem, cpu, events := pd, m, c, 0;
    }

    /** A completion counter moves forward or stays. */
    method Advance(pd: nat, dva: word, v: word)
      modifies `mem
      ensures mem == Apply(old(mem), Mono(At(pd, dva), v))
    {
      if dva != 0 && Ahead(v, Word(mem, pd, dva)) {
        mem := Wr(mem, At(pd, dva), v);
      }
    }

    method CompleteSyncs(pd: nat, first: nat, n: nat)
      modifies `mem
      ensures mem == Perform(old(mem), pd, Syncs(first, n))
    {
      hide Perform, Syncs, Apply, At, Rd;
      NothingAsked(mem, pd, first);
      for i := 0 to n
        invariant mem == Perform(old(mem), pd, Syncs(first, i))
      {
        OneMore(first, i);
        PerformNext(old(mem), pd, Syncs(first, i), Sync(first + 16 * i, first + 16 * i + 4));
        Advance(pd, Word(mem, pd, first + 16 * i + 4), (Word(mem, pd, first + 16 * i) + 1) % 0x1_0000_0000);
      }
    }

    method LeaveStatuses(pd: nat, first: nat, n: nat)
      modifies `mem
      ensures mem == Perform(old(mem), pd, Statuses(first, n))
    {
      hide Perform, Statuses, Rd, At, Apply, Wr;
      NothingAsked(mem, pd, first);
      for i := 0 to n
        invariant mem == Perform(old(mem), pd, Statuses(first, i))
      {
        OneMore(first, i);
        PerformNext(old(mem), pd, Statuses(first, i), Status(first + 8 * i, first + 8 * i + 4));
        var a := Word(mem, pd, first + 8 * i);
        PutIs(mem, pd, a, Word(mem, pd, first + 8 * i + 4));
        if a != 0 {
          mem := Wr(mem, At(pd, a), Word(mem, pd, first + 8 * i + 4));
        }
      }
    }

    method CompleteTa(pd: nat, cmd: nat)
      modifies `mem
      ensures mem == TaCommand(old(mem), pd, cmd)
    {
      hide Perform, Statuses, Syncs;
      var sh, flags := cmd + 0x50, Word(mem, pd, cmd + 4);
      OneSync(sh + 0x14);
      CompleteSyncs(pd, sh + 0x30, Min(Word(mem, pd, sh + 0x2c), 8));
      CompleteSyncs(pd, sh + 0x14, 1);
      LeaveStatuses(pd, sh + 0xc0, Min(Word(mem, pd, sh + 4), 32));
      if Bit(flags, 2) {
        CompleteRender(pd, cmd, flags);
      }
    }

    method CompleteRender(pd: nat, cmd: nat, flags: nat)
      modifies `mem
      ensures mem == Render(old(mem), pd, cmd, flags)
    {
      hide Perform, Statuses, Syncs, Rd, At;
      var sh := cmd + 0x50;
      OneSync(sh + 0x24);
      OneSync(sh + 0xb8);
      CompleteSyncs(pd, sh + 0x24, 1);
      if Bit(flags, 0x200) {
        CompleteSyncs(pd, sh + 0xb8, 1);
      }
      var a: nat := Word(mem, pd, cmd + 0x3c);
      if a != 0 {
        ReleaseIs(mem, pd, a);
        var n, inUse: nat := Min(Word(mem, pd, a + 4), 16), Word(mem, pd, a);
        CompleteSyncs(pd, a + 16, n);
        if inUse != 0 {
          mem := Wr(mem, At(pd, inUse), 0);
          if Word(mem, pd, inUse + 0xFFFF_FFF8) == 1 {
            mem := Wr(mem, At(pd, inUse + 0xFFFF_FFF8), 0);
          }
        }
      }
      LeaveStatuses(pd, sh + 0x1c0, Min(Word(mem, pd, sh + 8), 4));
    }

    method CompleteTransfer(pd: nat, cmd: nat)
      modifies `mem
      ensures mem == TransferCommand(old(mem), pd, cmd)
    {
      hide Perform, Statuses, Syncs;
      var sh := cmd + 0x78;
      OneSync(sh + 0x98);
      OneSync(sh + 0xa8);
      CompleteSyncs(pd, sh + 4, Min(Word(mem, pd, sh), 8));
      CompleteSyncs(pd, sh + 0x90, Min(Word(mem, pd, sh + 0x84), 1));
      CompleteSyncs(pd, sh + 0x98, 1);
      CompleteSyncs(pd, sh + 0xa8, 1);
      LeaveStatuses(pd, sh + 0xbc, Min(Word(mem, pd, sh + 0xb8), 4));
    }

    /** At most 64 commands of one client queue. */
    method WorkOff(q: Queue)
      modifies `mem
      ensures mem == Kick(q, old(mem), MOST)
    {
      hide TaCommand, TransferCommand, Ready, Size, Command;
      var guard := MOST;
      while guard > 0
        invariant 0 <= guard <= MOST && Kick(q, mem, guard) == Kick(q, old(mem), MOST)
      {
        var wr, rd := Word(mem, q.pd, q.ctl), Word(mem, q.pd, q.ctl + 4);
        if rd == wr { return; }
        if !Ready(q, mem, rd) { return; }
        var next := Next(q, mem, rd);
        CommandIs(q, mem, rd);
        if q.transfer {
          CompleteTransfer(q.pd, q.base + rd);
        } else {
          CompleteTa(q.pd, q.base + rd);
        }
        mem := Wr(mem, At(q.pd, q.ctl + 4), next);
        guard := guard - 1;
      }
    }

    method KickTa(context: nat)
      modifies `mem
      ensures mem == TaKick(old(mem), kernelPd, context)
    {
      var flags := Word(mem, kernelPd, context);
      WorkOff(ClientQueue(mem, kernelPd, false, context));
      if Bit(flags, 1) {
        mem := Wr(mem, At(kernelPd, context), flags - 1);
      }
    }

    method KickTransfer(context: nat)
      modifies `mem
      ensures mem == TransferKick(old(mem), kernelPd, context)
    {
      WorkOff(ClientQueue(mem, kernelPd, true, context));
    }

    method AnswerMiscInfo(devinfo: nat, block: nat)
      modifies `mem
      ensures mem == MiscInfo(old(mem), cpu, kernelPd, devinfo, block)
    {
      if At(kernelPd, block) !in mem { return; }
      mem := Wr(mem, At(kernelPd, block + 0xc), 0x10711);
      mem := Wr(mem, At(kernelPd, block + 0x10), 0xd3e39);
      mem := Wr(mem, At(kernelPd, block + 0x18), Word(mem, kernelPd, block + 4));
      mem := Wr(mem, At(kernelPd, block + 0x1c), Ldr(cpu, devinfo + 0x98));
      ghost var before := mem;
      for i := 0 to 13
        invariant mem == Versions(before, cpu, kernelPd, devinfo, block, i)
      {
        mem := Wr(mem, At(kernelPd, block + 0x20 + 4 * i), Ldr(cpu, devinfo + 0x9c + 4 * i));
      }
      mem := Wr(mem, At(kernelPd, block), WithBit(Word(mem, kernelPd, block), 1));
    }

    /** One kernel command: kicks, power, clean-up and information requests; every command raises an event. */
    method ProcessCommand(devinfo: nat, e: seq<word>)
      requires |e| == 8
      modifies `mem, `cpu, `events
      ensures events == old(events) + 1
      ensures Device(mem, cpu) == Effect(Device(old(mem), old(cpu)), kernelPd, devinfo, e)
    {
      hide Kick, ClientQueue, Bit, Wr, MiscInfo;
      var hostctl: nat := Ldr(cpu, devinfo + 0x7d8);
      var t := 0;
      while t < 11 && !(e[0] == Ldr(cpu, devinfo + 0x58 + 4 * t) && e[0] != 0)
        invariant 0 <= t <= 11 && TypeFrom(cpu, devinfo, e[0], t) == TypeFrom(cpu, devinfo, e[0], 0)
      {
        t := t + 1;
      }
      if t == 0 {
        KickTa(e[3]);
      } else if t == 1 {
        KickTransfer(e[3]);
      } else if t == 3 && PtrOk(hostctl) {
        if e[3] == 1 {
          cpu := Str(cpu, hostctl + 4, WithBit(Ldr(cpu, hostctl + 4), 8));
        } else if e[3] == 2 {
          cpu := Str(cpu, hostctl + 4, WithBit(Ldr(cpu, hostctl + 4), 4));
        }
      } else if t == 5 && PtrOk(hostctl) {
        cpu := Str(cpu, hostctl + 8, WithBit(Ldr(cpu, hostctl + 8), 1));
      } else if t == 6 {
        AnswerMiscInfo(devinfo, e[3]);
      }
      events := events + 1;
    }

    method ReadSlot(at: nat) returns (e: seq<word>)
      ensures e == SlotWords(cpu, at)
    {
      e := [];
      for i := 0 to 8
        invariant e == SlotWords(cpu, at)[..i]
      {
        e := e + [Ldr(cpu, at + 4 * i)];
      }
    }

    /** Every slot between the read and the write offset is handled once, in order, and the ring is empty then. */
    method ConsumeCcb(devinfo: nat)
      modifies this
      ensures Device(mem, cpu) == Consumed(Device(old(mem), old(cpu)), kernelPd, devinfo)
      ensures var r := RingAt(old(cpu), devinfo);
              if r.None? then events == old(events)
              else
                && events == old(events) + Distance(r.value.start, r.value.end)
                && (r.value.rp in cpu ==> Ldr(cpu, r.value.rp) == r.value.end)
    {
      hide Slots, Distance, Work;
      var info: nat := Ldr(cpu, devinfo + 0x40);
      if !PtrOk(info) { return; }
      var base: nat, wp: nat, rp: nat := Ldr(cpu, info + 8), Ldr(cpu, info + 0xc), Ldr(cpu, info + 0x10);
      if !PtrOk(base) || !PtrOk(wp) || !PtrOk(rp) { return; }
      var end: nat, start: nat := Ldr(cpu, wp) % 256, Ldr(cpu, rp) % 256;
      Drain(devinfo, base, start, end);
      cpu := Str(cpu, rp, end);
    }

    method Drain(devinfo: nat, base: nat, start: nat, end: nat)
      requires start < 256 && end < 256
      modifies this
      ensures events == old(events) + Distance(start, end)
      ensures Device(mem, cpu) == Work(Device(old(mem), old(cpu)), kernelPd, devinfo, base, Slots(start, end))
    {
      hide Distance, Effect, SlotWords, TypeFrom;
      ghost var all := Work(Device(mem, cpu), kernelPd, devinfo, base, Slots(start, end));
      var r := start;
      while r != end
        invariant r < 256 && events + Distance(r, end) == old(events) + Distance(start, end)
        invariant Work(Device(mem, cpu), kernelPd, devinfo, base, Slots(r, end)) == all
        decreases Distance(r, end)
      {
        DistanceStep(r, end);
        assert Slots(r, end)[1..] == Slots((r + 1) % 256, end);
        var e := ReadSlot(base + r * 32);
        ProcessCommand(devinfo, e);
        r := (r + 1) % 256;
      }
      DistanceHere(end);
    }
  }

  lemma DistanceStep(r: nat, w: nat)
    requires r < 256 && w < 256 && r != w
    ensures Distance((r + 1) % 256, w) == Distance(r, w) - 1
  {
  }

  lemma OneSync(first: nat)
    ensures Syncs(first, 1) == [Sync(first, first + 4)]
  {
  }

  lemma NothingAsked(m: Mem, pd: nat, first: nat)
    ensures Perform(m, pd, Syncs(first, 0)) == m && Perform(m, pd, Statuses(first, 0)) == m
  {
  }

  lemma PutIs(m: Mem, pd: nat, a: word, v: word)
    ensures Apply(m, Put(At(pd, a), v)) == if a == 0 then m else Wr(m, At(pd, a), v)
  {
  }

  lemma ReleaseIs(m: Mem, pd: nat, a: nat)
    ensures Asked(m, pd, Release(a)) == Put(At(pd, Word(m, pd, a)), 0)
    ensures Asked(m, pd, Mark(a)) == if Word(m, pd, a) == 0 then Put(At(pd, 0), 0)
                                     else Unmark(At(pd, Word(m, pd, a) + 0xFFFF_FFF8))
    ensures At(pd, Word(m, pd, a)).dva == Word(m, pd, a)
  {
  }

  lemma CommandIs(q: Queue, m: Mem, rd: nat)
    ensures Command(q, m, rd)
         == if q.transfer then TransferCommand(m, q.pd, q.base + rd) else TaCommand(m, q.pd, q.base + rd)
  {
    hide TaCommand, TransferCommand;
  }
}
