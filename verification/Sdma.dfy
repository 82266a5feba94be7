/** The system DMA engine: channels that move elements in bursts, as their ports and the engine's ticks allow. */
module Sdma {
  import opened Bytes
  import opened Numbers

  const CHANNELS: nat := 32
  const LINES: nat := 4
  const BURST: nat := 4096
  const INT32_MAX: nat := 0x7FFF_FFFF

  // ---------------------------------------------------------------- the bus

  /**
   * Memory, and for each data port what its successive reads bring, byte by byte, how many were made, and what was
   * written to it.
   */
  datatype Bus = Bus(mem: nat -> byte, port: (nat, nat, nat) -> byte, taken: nat -> nat, written: nat -> seq<seq<byte>>)

  /** Bytes of an element. */
  type Size = n: nat | n == 1 || n == 2 || n == 4 witness 1

  /** How a channel moves elements. */
  datatype Mode = Mode(es: Size, srcMoves: bool, dstMoves: bool, ports: set<nat>)

  function PortByte(b: Bus, p: nat, i: nat): byte { b.port(p, b.taken(p), i) }

  function FromPort(b: Bus, p: nat, n: nat): (v: seq<byte>)
    ensures |v| == n
  {
    seq(n, i requires 0 <= i < n => PortByte(b, p, i))
  }

  function Loaded(b: Bus, src: nat, m: Mode): (v: seq<byte>)
    ensures |v| == m.es
  {
    if src in m.ports then FromPort(b, src, m.es) else Take(b.mem, src, m.es)
  }

  function Stored(mem: nat -> byte, dst: nat, v: seq<byte>): nat -> byte
  {
    (a: nat) => if dst <= a < dst + |v| then v[a - dst] else mem(a)
  }

  function Counted(taken: nat -> nat, src: nat): nat -> nat
  {
    (a: nat) => if a == src then taken(a) + 1 else taken(a)
  }

  function Appended(written: nat -> seq<seq<byte>>, dst: nat, v: seq<byte>): nat -> seq<seq<byte>>
  {
    (a: nat) => if a == dst then written(a) + [v] else written(a)
  }

  /** One element from src to dst. */
  function Move1(b: Bus, src: nat, dst: nat, m: Mode): Bus
  {
    var v := Loaded(b, src, m);
    var b' := if src in m.ports then b.(taken := Counted(b.taken, src)) else b;
    if dst in m.ports then b'.(written := Appended(b.written, dst, v))
    else b'.(mem := Stored(b.mem, dst, v))
  }

  function SrcAfter(src: nat, m: Mode, k: nat): nat { if m.srcMoves then src + k * m.es else src }

  function DstAfter(dst: nat, m: Mode, k: nat): nat { if m.dstMoves then dst + k * m.es else dst }

  /** k elements, one after another, without a pause. */
  function Copy(b: Bus, src: nat, dst: nat, m: Mode, k: nat): Bus
  {
    if k == 0 then b
    else Move1(Copy(b, src, dst, m, k - 1), SrcAfter(src, m, k - 1), DstAfter(dst, m, k - 1), m)
  }

  lemma AfterMore(a: nat, m: Mode, j: nat, k: nat)
    ensures SrcAfter(SrcAfter(a, m, j), m, k) == SrcAfter(a, m, j + k)
    ensures DstAfter(DstAfter(a, m, j), m, k) == DstAfter(a, m, j + k)
  {
    assert (j + k) * m.es == j * m.es + k * m.es;
  }

  /** A copy that is taken up again where it stopped is one copy. */
  lemma {:induction false} CopyMore(b: Bus, src: nat, dst: nat, m: Mode, j: nat, k: nat)
    ensures Copy(Copy(b, src, dst, m, j), SrcAfter(src, m, j), DstAfter(dst, m, j), m, k) == Copy(b, src, dst, m, j + k)
    decreases k
  {
    hide Move1, SrcAfter, DstAfter;
    if k > 0 {
      CopyMore(b, src, dst, m, j, k - 1);
      AfterMore(src, m, j, k - 1);
      AfterMore(dst, m, j, k - 1);
    }
  }

  // ---------------------------------------------------------------- what a transfer has to do with

  /** Where a transfer reads and where it writes. */
  datatype Foot = Foot(src: nat, srcLen: nat, dst: nat, dstLen: nat)

  function FootOf(src: nat, dst: nat, m: Mode, k: nat): Foot
  {
    Foot(src, if m.srcMoves then k * m.es else m.es, dst, if m.dstMoves then k * m.es else m.es)
  }

  predicate Near(f: Foot, a: nat) { f.src <= a < f.src + f.srcLen || f.dst <= a < f.dst + f.dstLen }

  /** The two buses are the same as far as the transfer can tell. */
  ghost predicate AgreeNear(b: Bus, c: Bus, f: Foot)
  {
    && b.port == c.port
    && forall a :: Near(f, a) ==> b.mem(a) == c.mem(a) && b.taken(a) == c.taken(a) && b.written(a) == c.written(a)
  }

  /** An element within the transfer. */
  predicate Inside(f: Foot, src: nat, dst: nat, es: Size)
  {
    && f.src <= src && src + es <= f.src + f.srcLen
    && f.dst <= dst && dst + es <= f.dst + f.dstLen
  }

  lemma Move1Agrees(b: Bus, c: Bus, src: nat, dst: nat, m: Mode, f: Foot)
    requires AgreeNear(b, c, f) && Inside(f, src, dst, m.es)
    ensures AgreeNear(Move1(b, src, dst, m), Move1(c, src, dst, m), f)
  {
    assert Near(f, src) && Near(f, dst);
    assert Loaded(b, src, m) == Loaded(c, src, m) by {
      if src !in m.ports {
        forall i | 0 <= i < m.es ensures Take(b.mem, src, m.es)[i] == Take(c.mem, src, m.es)[i] {
          assert Near(f, src + i);
        }
      }
    }
  }

  /** A move whose element is written elsewhere, and read elsewhere if from a port, does not concern the transfer. */
  predicate MovesOff(src: nat, dst: nat, m: Mode, f: Foot)
  {
    && (src in m.ports ==> !Near(f, src))
    && (dst + m.es <= f.src || f.src + f.srcLen <= dst || f.srcLen == 0)
    && (dst + m.es <= f.dst || f.dst + f.dstLen <= dst || f.dstLen == 0)
  }

  lemma Move1Off(b: Bus, c: Bus, src: nat, dst: nat, m: Mode, f: Foot)
    requires MovesOff(src, dst, m, f) && AgreeNear(b, c, f)
    ensures AgreeNear(Move1(b, src, dst, m), c, f)
  {
  }

  // ---------------------------------------------------------------- what a copy leaves where

  /** None of the k elements is read from or written to a port. */
  predicate InMemory(src: nat, dst: nat, m: Mode, k: nat)
  {
    forall j: nat :: j < k ==> SrcAfter(src, m, j) !in m.ports && DstAfter(dst, m, j) !in m.ports
  }

  /** One element further on. */
  lemma NextElement(k: nat, es: nat)
    requires k > 0
    ensures (k - 1) * es + es == k * es && (k - 1) * es >= 0
  {
  }

  /**
   * From memory to memory, both addresses moving: byte after byte of the source, if the destination starts no later
   * or lies behind it; and nothing else changes.
   */
  lemma MemoryCopied(b: Bus, src: nat, dst: nat, m: Mode, k: nat, a: nat)
    requires m.srcMoves && m.dstMoves && InMemory(src, dst, m, k) && (dst <= src || src + k * m.es <= dst)
    ensures Copy(b, src, dst, m, k).mem(a) == if dst <= a < dst + k * m.es then b.mem(src + (a - dst)) else b.mem(a)
  {
    BytesCopied(b, src, dst, m, k, k * m.es, a);
  }

  lemma {:induction false} BytesCopied(b: Bus, src: nat, dst: nat, m: Mode, k: nat, len: nat, a: nat)
    requires m.srcMoves && m.dstMoves && InMemory(src, dst, m, k) && len == k * m.es
    requires dst <= src || src + len <= dst
    ensures Copy(b, src, dst, m, k).mem(a) == if dst <= a < dst + len then b.mem(src + (a - dst)) else b.mem(a)
    decreases k
  {
    if k == 0 {
      NoElements(b, src, dst, m);
    } else {
      hide Copy, InMemory, Move1, SrcAfter, DstAfter;
      NextElement(k, m.es);
      var done: nat := len - m.es;
      LastInMemory(b, src, dst, m, k, done);
      BytesCopied(b, src, dst, m, k - 1, done, a);
      if dst + done <= a < dst + len { BytesCopied(b, src, dst, m, k - 1, done, src + (a - dst)); }
      MemoryNext(b, Copy(b, src, dst, m, k - 1), src, dst, m, done, a);
    }
  }

  lemma LastInMemory(b: Bus, src: nat, dst: nat, m: Mode, k: nat, done: nat)
    requires m.srcMoves && m.dstMoves && InMemory(src, dst, m, k) && k > 0 && done == (k - 1) * m.es
    ensures InMemory(src, dst, m, k - 1) && src + done !in m.ports && dst + done !in m.ports
    ensures Copy(b, src, dst, m, k) == Move1(Copy(b, src, dst, m, k - 1), src + done, dst + done, m)
  {
    hide Copy, Move1;
    InMemoryAt(src, dst, m, k, k - 1);
    LastElement(b, src, dst, m, k);
  }

  lemma MemoryNext(b: Bus, c: Bus, src: nat, dst: nat, m: Mode, done: nat, a: nat)
    requires src + done !in m.ports && dst + done !in m.ports
    requires c.mem(a) == if dst <= a < dst + done then b.mem(src + (a - dst)) else b.mem(a)
    requires dst + done <= a < dst + done + m.es ==> c.mem(src + (a - dst)) == b.mem(src + (a - dst))
    ensures Move1(c, src + done, dst + done, m).mem(a)
         == if dst <= a < dst + done + m.es then b.mem(src + (a - dst)) else b.mem(a)
  {
    hide Move1;
    ElementStored(c, src + done, dst + done, m, a);
  }

  lemma ElementStored(b: Bus, src: nat, dst: nat, m: Mode, a: nat)
    requires src !in m.ports && dst !in m.ports
    ensures Move1(b, src, dst, m).mem(a) == if dst <= a < dst + m.es then b.mem(src + (a - dst)) else b.mem(a)
  {
  }

  /** What is written before an element stays as it is. */
  lemma {:induction false} EarlierKept(b: Bus, src: nat, dst: nat, m: Mode, j: nat, k: nat, a: nat)
    requires m.dstMoves && j <= k && a < dst + j * m.es
    ensures Copy(b, src, dst, m, k).mem(a) == Copy(b, src, dst, m, j).mem(a)
    decreases k
  {
    hide Copy;
    if j < k {
      LastElement(b, src, dst, m, k);
      EarlierKept(b, src, dst, m, j, k - 1, a);
      MulMono(j, k - 1, m.es);
      assert DstAfter(dst, m, k - 1) == dst + (k - 1) * m.es;
    }
  }

  lemma LastElement(b: Bus, src: nat, dst: nat, m: Mode, k: nat)
    requires k > 0
    ensures Copy(b, src, dst, m, k)
         == Move1(Copy(b, src, dst, m, k - 1), SrcAfter(src, m, k - 1), DstAfter(dst, m, k - 1), m)
  {
  }

  /** The destination ends as the source was, over its whole length. */
  ghost predicate Arrives(b: Bus, src: nat, dst: nat, m: Mode, k: nat)
  {
    forall a: nat :: dst <= a < dst + k * m.es ==> Copy(b, src, dst, m, k).mem(a) == b.mem(src + (a - dst))
  }

  /** Whatever memory holds. */
  ghost predicate AlwaysArrives(b: Bus, src: nat, dst: nat, m: Mode, k: nat)
  {
    forall mem: nat -> byte :: Arrives(b.(mem := mem), src, dst, m, k)
  }

  /**
   * A copy of more than one element arrives, whatever memory holds, if and only if its destination starts no later
   * than its source or lies behind it.
   */
  lemma ArrivesExactly(b: Bus, src: nat, dst: nat, m: Mode, k: nat)
    requires m.srcMoves && m.dstMoves && InMemory(src, dst, m, k) && k > 1
    ensures AlwaysArrives(b, src, dst, m, k) <==> dst <= src || src + k * m.es <= dst
  {
    hide Copy, InMemory;
    if dst <= src || src + k * m.es <= dst {
      forall mem: nat -> byte ensures Arrives(b.(mem := mem), src, dst, m, k) {
        forall a: nat | dst <= a < dst + k * m.es
          ensures Copy(b.(mem := mem), src, dst, m, k).mem(a) == mem(src + (a - dst))
        {
          MemoryCopied(b.(mem := mem), src, dst, m, k, a);
        }
      }
    } else {
      var far := dst - src;
      var x: nat := if far >= m.es then far else m.es; // a byte of the source that is overwritten before it is read
      var mem: nat -> byte := a => if a == src + x then 1 else 0;
      Overwritten(b.(mem := mem), src, dst, m, k, x);
      assert Copy(b.(mem := mem), src, dst, m, k).mem(dst + x) != mem(src + (dst + x - dst));
      assert !Arrives(b.(mem := mem), src, dst, m, k);
    }
  }

  lemma Overwritten(b: Bus, src: nat, dst: nat, m: Mode, k: nat, x: nat)
    requires m.srcMoves && m.dstMoves && InMemory(src, dst, m, k) && k > 1 && src < dst < src + k * m.es
    requires x == if dst - src >= m.es then dst - src else m.es
    ensures x < k * m.es && Copy(b, src, dst, m, k).mem(dst + x) == b.mem(src + (src + x - dst))
  {
    hide Copy, InMemory;
    var q := x / m.es;
    assert q * m.es <= x < q * m.es + m.es && q >= 1 by { DivMod(x, m.es); }
    assert q < k by { if q >= k { MulMono(k, q, m.es); } }
    MulMono(2, k, m.es);
    NextElement(q + 1, m.es);
    PartOver(b, src, dst, m, k, q, src + x);
    LastElement(b, src, dst, m, q + 1);
    InMemoryAt(src, dst, m, k, q);
    ElementStored(Copy(b, src, dst, m, q), src + q * m.es, dst + q * m.es, m, dst + x);
    EarlierKept(b, src, dst, m, q + 1, k, dst + x);
  }

  /** After q elements the byte at y, of the first that was written, is that of the source's start. */
  lemma PartOver(b: Bus, src: nat, dst: nat, m: Mode, k: nat, q: nat, y: nat)
    requires m.srcMoves && m.dstMoves && InMemory(src, dst, m, k) && 1 <= q < k && dst <= y < dst + m.es
    requires src + q * m.es <= dst || q == 1
    ensures Copy(b, src, dst, m, q).mem(y) == b.mem(src + (y - dst))
  {
    hide Copy;
    InMemoryAt(src, dst, m, k, 0);
    LastElement(b, src, dst, m, 1);
    assert Copy(b, src, dst, m, 0) == b by { NoElements(b, src, dst, m); }
    ElementStored(b, src, dst, m, y);
    EarlierKept(b, src, dst, m, 1, q, y);
  }

  lemma NoElements(b: Bus, src: nat, dst: nat, m: Mode)
    ensures Copy(b, src, dst, m, 0) == b
  {
  }

  lemma InMemoryAt(src: nat, dst: nat, m: Mode, k: nat, j: nat)
    requires m.srcMoves && m.dstMoves && InMemory(src, dst, m, k) && j < k
    ensures src + j * m.es !in m.ports && dst + j * m.es !in m.ports
    ensures SrcAfter(src, m, j) == src + j * m.es && DstAfter(dst, m, j) == dst + j * m.es
    ensures InMemory(src, dst, m, j)
  {
    assert SrcAfter(src, m, j) !in m.ports && DstAfter(dst, m, j) !in m.ports;
  }

  /** From a port: the j-th element is what the port's j-th read brings, and that many reads are made. */
  lemma PortRead(b: Bus, src: nat, dst: nat, m: Mode, k: nat, j: nat, i: nat)
    requires !m.srcMoves && m.dstMoves && src in m.ports && j < k && i < m.es
    requires forall j: nat :: j < k ==> DstAfter(dst, m, j) !in m.ports
    ensures Copy(b, src, dst, m, k).mem(dst + j * m.es + i) == b.port(src, b.taken(src) + j, i)
    ensures Copy(b, src, dst, m, k).taken(src) == b.taken(src) + k && Copy(b, src, dst, m, k).port == b.port
  {
    hide Copy;
    NextElement(j + 1, m.es);
    ReadsMade(b, src, dst, m, j);
    ReadsMade(b, src, dst, m, k);
    LastElement(b, src, dst, m, j + 1);
    assert DstAfter(dst, m, j) == dst + j * m.es && DstAfter(dst, m, j) !in m.ports;
    EarlierKept(b, src, dst, m, j + 1, k, dst + j * m.es + i);
  }

  lemma {:induction false} ReadsMade(b: Bus, src: nat, dst: nat, m: Mode, k: nat)
    requires !m.srcMoves && src in m.ports
    ensures Copy(b, src, dst, m, k).taken(src) == b.taken(src) + k && Copy(b, src, dst, m, k).port == b.port
    decreases k
  {
    if k > 0 { ReadsMade(b, src, dst, m, k - 1); }
  }

  /** k elements of es bytes from a on. */
  function Sliced(mem: nat -> byte, a: nat, es: nat, k: nat): (vs: seq<seq<byte>>)
    ensures |vs| == k && forall j :: 0 <= j < k ==> vs[j] == Take(mem, a + j * es, es)
  {
    seq(k, j requires 0 <= j < k => Take(mem, a + j * es, es))
  }

  /** To a port: the elements of the source are written to it one after another, and memory stays as it is. */
  lemma {:induction false} PortWritten(b: Bus, src: nat, dst: nat, m: Mode, k: nat)
    requires m.srcMoves && !m.dstMoves && dst in m.ports && forall j: nat :: j < k ==> SrcAfter(src, m, j) !in m.ports
    ensures Copy(b, src, dst, m, k).written(dst) == b.written(dst) + Sliced(b.mem, src, m.es, k)
    ensures Copy(b, src, dst, m, k).mem == b.mem
    decreases k
  {
    if k == 0 {
      assert b.written(dst) + [] == b.written(dst);
    } else {
      PortWritten(b, src, dst, m, k - 1);
      var was, v := Sliced(b.mem, src, m.es, k - 1), Take(b.mem, src + (k - 1) * m.es, m.es);
      assert SrcAfter(src, m, k - 1) == src + (k - 1) * m.es;
      assert Sliced(b.mem, src, m.es, k) == was + [v];
      assert b.written(dst) + (was + [v]) == b.written(dst) + was + [v];
    }
  }

  /** Only the destination is written, only ports at the source are read, only those at the destination written to. */
  ghost predicate OnlyInto(b: Bus, c: Bus, f: Foot)
  {
    && c.port == b.port
    && (forall a: nat :: !(f.dst <= a < f.dst + f.dstLen) ==> c.mem(a) == b.mem(a) && c.written(a) == b.written(a))
    && (forall a: nat :: !(f.src <= a < f.src + f.srcLen) ==> c.taken(a) == b.taken(a))
  }

  lemma OnlyIntoMore(b: Bus, c: Bus, src: nat, dst: nat, m: Mode, f: Foot)
    requires OnlyInto(b, c, f) && Inside(f, src, dst, m.es)
    ensures OnlyInto(b, Move1(c, src, dst, m), f)
  {
  }

  /** Nothing outside the transfer changes. */
  lemma {:induction false} NothingElse(b: Bus, src: nat, dst: nat, m: Mode, k: nat, f: Foot)
    requires f.src <= src && f.dst <= dst
    requires src + (if m.srcMoves then k * m.es else m.es) <= f.src + f.srcLen
    requires dst + (if m.dstMoves then k * m.es else m.es) <= f.dst + f.dstLen
    ensures OnlyInto(b, Copy(b, src, dst, m, k), f)
    decreases k
  {
    hide Move1, OnlyInto;
    if k == 0 {
      OnlyItself(b, f);
    } else {
      NextElement(k, m.es);
      NothingElse(b, src, dst, m, k - 1, f);
      OnlyIntoMore(b, Copy(b, src, dst, m, k - 1), SrcAfter(src, m, k - 1), DstAfter(dst, m, k - 1), m, f);
    }
  }

  lemma OnlyItself(b: Bus, f: Foot)
    ensures OnlyInto(b, b, f)
  {
  }

  // ---------------------------------------------------------------- channels

  datatype Flag = HalfDone | FrameDone | LastDone | BlockDone | Other(bit: nat)

  const DONE_FLAGS := {FrameDone, LastDone, BlockDone}

  datatype Ccr = Ccr(enable: bool, srcMoves: bool, dstMoves: bool, sync: nat)

  datatype Channel = Channel(ccr: Ccr, es: Size, cen: nat, cfn: nat, cssa: nat, cdsa: nat, cicr: set<Flag>,
                             csr: set<Flag>, remaining: nat, src: nat, dst: nat, csac: nat, cdac: nat, active: bool)

  /** Elements of a transfer: the product of the two counts as far as 32 bits hold it. */
  function Elements(cen: nat, cfn: nat): nat
  {
    (cen % 0x100_0000) * (cfn % 0x1_0000) % 0x1_0000_0000
  }

  /** What a register holds beyond its 24 or 16 bits does not count. */
  lemma ElementsExactly(cen: nat, cfn: nat, x: nat, y: nat)
    requires cen < 0x100_0000 && cfn < 0x1_0000
    ensures Elements(0x100_0000 * x + cen, 0x1_0000 * y + cfn) == cen * cfn % 0x1_0000_0000
  {
    RemainderOf(0x100_0000 * x + cen, 0x100_0000, x, cen);
    RemainderOf(0x1_0000 * y + cfn, 0x1_0000, y, cfn);
  }

  function ModeOf(c: Channel, ports: set<nat>): Mode { Mode(c.es, c.ccr.srcMoves, c.ccr.dstMoves, ports) }

  predicate MemToMem(c: Channel, ports: set<nat>)
  {
    c.ccr.sync == 0 && c.src !in ports && c.dst !in ports
  }

  /** About the transfer a channel was last started on: its size, what is moved, and whether it was completed. */
  datatype Transfer = Transfer(total: nat, moved: nat, completions: nat, huge: bool)

  /** An active channel is enabled and has elements left; moved and left make up the transfer; done once at most. */
  predicate Fine(c: Channel, t: Transfer)
  {
    && (c.active ==> c.ccr.enable && c.remaining > 0 && t.completions == 0)
    && t.moved + c.remaining == t.total && t.completions <= 1
    && (t.completions == 1 ==> !c.active && c.remaining == 0)
  }

  /** What the channel's present transfer, of `total` elements, has to do with. */
  function FootAt(c: Channel, total: nat, ports: set<nat>): Foot { FootOf(c.cssa, c.cdsa, ModeOf(c, ports), total) }

  /**
   * From the bus it found, the channel has made the first part of one uninterrupted copy, as far as source,
   * destination and their ports are concerned.
   */
  ghost predicate Copied(b: Bus, found: Bus, c: Channel, moved: nat, total: nat, ports: set<nat>)
  {
    var m := ModeOf(c, ports);
    && AgreeNear(b, Copy(found, c.cssa, c.cdsa, m, moved), FootAt(c, total, ports))
    && c.src == SrcAfter(c.cssa, m, moved) && c.dst == DstAfter(c.cdsa, m, moved)
  }

  /** All that is left of the channel's transfer stays off another one. */
  predicate StaysOff(c: Channel, f: Foot, ports: set<nat>)
  {
    var g := FootOf(c.src, c.dst, ModeOf(c, ports), c.remaining);
    && (forall p :: p in ports && g.src <= p < g.src + g.srcLen ==> !Near(f, p))
    && (g.dst + g.dstLen <= f.src || f.src + f.srcLen <= g.dst || f.srcLen == 0)
    && (g.dst + g.dstLen <= f.dst || f.dst + f.dstLen <= g.dst || f.dstLen == 0)
  }

  lemma StaysOffNext(c: Channel, f: Foot, ports: set<nat>)
    requires StaysOff(c, f, ports) && c.remaining > 0
    ensures MovesOff(c.src, c.dst, ModeOf(c, ports), f) && StaysOff(MovedOn(c), f, ports)
  {
    assert (c.remaining - 1) * c.es == c.remaining * c.es - c.es;
    assert c.remaining * c.es >= c.es by { Least(c.remaining, c.es); }
  }

  lemma Least(n: nat, es: nat)
    requires n > 0
    ensures n * es >= es
  {
  }

  function MovedOn(c: Channel): (d: Channel)
    requires c.remaining > 0
    ensures d == c.(src := d.src, dst := d.dst, remaining := c.remaining - 1)
  {
    c.(src := if c.ccr.srcMoves then c.src + c.es else c.src, dst := if c.ccr.dstMoves then c.dst + c.es else c.dst,
       remaining := c.remaining - 1)
  }

  /** What the channel has left to do lies within f. */
  predicate LeftWithin(c: Channel, f: Foot)
  {
    c.remaining > 0 ==>
      && f.src <= c.src && c.src + (if c.ccr.srcMoves then c.remaining * c.es else c.es) <= f.src + f.srcLen
      && f.dst <= c.dst && c.dst + (if c.ccr.dstMoves then c.remaining * c.es else c.es) <= f.dst + f.dstLen
  }

  lemma ElementMoved(b: Bus, now: Bus, c: Channel, f: Foot, ports: set<nat>)
    requires OnlyInto(b, now, f) && LeftWithin(c, f) && c.remaining > 0
    ensures OnlyInto(b, Move1(now, c.src, c.dst, ModeOf(c, ports)), f) && LeftWithin(MovedOn(c), f)
  {
    hide OnlyInto, Move1;
    NextElement(c.remaining, c.es);
    OnlyIntoMore(b, now, c.src, c.dst, ModeOf(c, ports), f);
  }

  lemma CopiedOneMore(b: Bus, found: Bus, c: Channel, moved: nat, ports: set<nat>)
    requires Copied(b, found, c, moved, moved + c.remaining, ports) && c.remaining > 0
    ensures Copied(Move1(b, c.src, c.dst, ModeOf(c, ports)), found, MovedOn(c), moved + 1, moved + c.remaining, ports)
  {
    hide Move1, AgreeNear;
    var m, f := ModeOf(c, ports), FootAt(c, moved + c.remaining, ports);
    AfterMore(c.cssa, m, moved, 1);
    AfterMore(c.cdsa, m, moved, 1);
    ElementInside(c, moved, ports);
    Move1Agrees(b, Copy(found, c.cssa, c.cdsa, m, moved), c.src, c.dst, m, f);
  }

  lemma ElementInside(c: Channel, moved: nat, ports: set<nat>)
    requires c.src == SrcAfter(c.cssa, ModeOf(c, ports), moved) && c.dst == DstAfter(c.cdsa, ModeOf(c, ports), moved)
    requires c.remaining > 0
    ensures Inside(FootAt(c, moved + c.remaining, ports), c.src, c.dst, c.es)
  {
    assert (moved + c.remaining) * c.es == moved * c.es + c.remaining * c.es;
    Least(c.remaining, c.es);
  }

  /** Flags and read-out registers do not matter to it. */
  lemma CopiedSame(b: Bus, found: Bus, c: Channel, d: Channel, moved: nat, total: nat, ports: set<nat>)
    requires Copied(b, found, c, moved, total, ports)
    requires d.src == c.src && d.dst == c.dst && d.cssa == c.cssa && d.cdsa == c.cdsa && d.es == c.es
    requires d.ccr.srcMoves == c.ccr.srcMoves && d.ccr.dstMoves == c.ccr.dstMoves
    ensures Copied(b, found, d, moved, total, ports)
  {
    hide AgreeNear;
  }

  lemma CopiedOff(b: Bus, found: Bus, c: Channel, moved: nat, total: nat, ports: set<nat>, d: Channel)
    requires Copied(b, found, c, moved, total, ports)
    requires MovesOff(d.src, d.dst, ModeOf(d, ports), FootAt(c, total, ports))
    ensures Copied(Move1(b, d.src, d.dst, ModeOf(d, ports)), found, c, moved, total, ports)
  {
    hide Move1, AgreeNear, MovesOff;
    Move1Off(b, Copy(found, c.cssa, c.cdsa, ModeOf(c, ports), moved), d.src, d.dst, ModeOf(d, ports),
             FootAt(c, total, ports));
  }

  lemma NothingCopied(b: Bus, c: Channel, total: nat, ports: set<nat>)
    requires c.src == c.cssa && c.dst == c.cdsa
    ensures Copied(b, b, c, 0, total, ports)
  {
  }

  /** A channel that is done. */
  function Done(c: Channel): Channel
  {
    c.(active := false, ccr := c.ccr.(enable := false), csr := c.csr + DONE_FLAGS)
  }

  lemma CopiedDone(b: Bus, found: Bus, c: Channel, moved: nat, total: nat, ports: set<nat>)
    requires Copied(b, found, c, moved, total, ports)
    ensures Copied(b, found, Done(c), moved, total, ports)
  {
    CopiedSame(b, found, c, Done(c), moved, total, ports);
  }

  /** A channel as it starts: from its start addresses, with all elements to go. */
  function Begun(c: Channel): Channel
  {
    c.(src := c.cssa, dst := c.cdsa, remaining := Elements(c.cen, c.cfn), active := true,
       csr := c.csr - DONE_FLAGS - {HalfDone})
  }

  /** Every channel marked so has made its part of its copy. */
  ghost predicate AllCopied(b: Bus, ch: seq<Channel>, ts: seq<Transfer>, found: seq<Bus>, clean: seq<bool>,
                            ports: set<nat>)
  {
    && |ch| == |ts| == |found| == |clean| == CHANNELS
    && forall n :: 0 <= n < CHANNELS && clean[n] ==> Copied(b, found[n], ch[n], ts[n].moved, ts[n].total, ports)
  }

  /** Those channels that channel n's burst leaves alone. */
  ghost function Spared(ch: seq<Channel>, ts: seq<Transfer>, clean: seq<bool>, n: nat, ports: set<nat>)
    : (after: seq<bool>)
    requires |ch| == |ts| == |clean| == CHANNELS && n < CHANNELS
    ensures |after| == CHANNELS
    ensures forall k :: 0 <= k < CHANNELS ==>
              after[k] == (clean[k] && (k == n || StaysOff(ch[n], FootAt(ch[k], ts[k].total, ports), ports)))
  {
    seq(CHANNELS, k requires 0 <= k < CHANNELS =>
      clean[k] && (k == n || StaysOff(ch[n], FootAt(ch[k], ts[k].total, ports), ports)))
  }

  /** Channel n as it is in mid-burst, the others as they were: all marked channels have made their parts. */
  ghost predicate MidBurst(b: Bus, ch: seq<Channel>, ts: seq<Transfer>, found: seq<Bus>, clean: seq<bool>, n: nat,
                           c: Channel, moved: nat, ports: set<nat>)
  {
    && |ch| == |ts| == |found| == |clean| == CHANNELS && n < CHANNELS
    && (clean[n] ==> Copied(b, found[n], c, ts[n].moved + moved, ts[n].total, ports))
    && forall k :: 0 <= k < CHANNELS && k != n && clean[k] ==>
         && Copied(b, found[k], ch[k], ts[k].moved, ts[k].total, ports)
         && StaysOff(c, FootAt(ch[k], ts[k].total, ports), ports)
  }

  lemma BurstStarts(b: Bus, ch: seq<Channel>, ts: seq<Transfer>, found: seq<Bus>, clean: seq<bool>, n: nat,
                    ports: set<nat>)
    requires AllCopied(b, ch, ts, found, clean, ports) && n < CHANNELS
    ensures MidBurst(b, ch, ts, found, Spared(ch, ts, clean, n, ports), n, ch[n], 0, ports)
  {
    hide Copied, StaysOff;
  }

  lemma BurstMoves(b: Bus, ch: seq<Channel>, ts: seq<Transfer>, found: seq<Bus>, clean: seq<bool>, n: nat, c: Channel,
                   moved: nat, ports: set<nat>)
    requires MidBurst(b, ch, ts, found, clean, n, c, moved, ports) && c.remaining > 0
    requires ts[n].total == ts[n].moved + moved + c.remaining
    ensures MidBurst(Move1(b, c.src, c.dst, ModeOf(c, ports)), ch, ts, found, clean, n, MovedOn(c), moved + 1, ports)
  {
    hide Copied, StaysOff, MovesOff, Move1;
    var b' := Move1(b, c.src, c.dst, ModeOf(c, ports));
    if clean[n] { CopiedOneMore(b, found[n], c, ts[n].moved + moved, ports); }
    forall k | 0 <= k < CHANNELS && k != n && clean[k]
      ensures Copied(b', found[k], ch[k], ts[k].moved, ts[k].total, ports)
      ensures StaysOff(MovedOn(c), FootAt(ch[k], ts[k].total, ports), ports)
    {
      StaysOffNext(c, FootAt(ch[k], ts[k].total, ports), ports);
      CopiedOff(b, found[k], ch[k], ts[k].moved, ts[k].total, ports, c);
    }
  }

  /** The burst is over; channel n is put back, perhaps with its flags and read-out registers changed. */
  lemma BurstEnds(b: Bus, ch: seq<Channel>, ts: seq<Transfer>, found: seq<Bus>, clean: seq<bool>, n: nat, c: Channel,
                  moved: nat, d: Channel, t: Transfer, ports: set<nat>)
    requires MidBurst(b, ch, ts, found, clean, n, c, moved, ports)
    requires d.src == c.src && d.dst == c.dst && d.cssa == c.cssa && d.cdsa == c.cdsa && d.es == c.es
    requires d.ccr.srcMoves == c.ccr.srcMoves && d.ccr.dstMoves == c.ccr.dstMoves
    requires t.moved == ts[n].moved + moved && t.total == ts[n].total
    ensures AllCopied(b, ch[n := d], ts[n := t], found, clean, ports)
  {
    hide Copied, StaysOff;
    if clean[n] { CopiedSame(b, found[n], c, d, t.moved, t.total, ports); }
  }

  lemma CopiedElsewhere(b: Bus, b': Bus, found: Bus, c: Channel, moved: nat, total: nat, ports: set<nat>)
    requires Copied(b, found, c, moved, total, ports) && AgreeNear(b', b, FootAt(c, total, ports))
    ensures Copied(b', found, c, moved, total, ports)
  {
    hide Copy, FootAt;
  }

  /** The marks that are left when the bus changes from one to another. */
  ghost function Marked(b: Bus, was: Bus, ch: seq<Channel>, ts: seq<Transfer>, clean: seq<bool>, ports: set<nat>)
    : (after: seq<bool>)
    requires |ch| == |ts| == |clean| == CHANNELS
    ensures |after| == CHANNELS
    ensures forall k :: 0 <= k < CHANNELS ==>
              after[k] == (clean[k] && AgreeNear(b, was, FootAt(ch[k], ts[k].total, ports)))
  {
    seq(CHANNELS, k requires 0 <= k < CHANNELS => clean[k] && AgreeNear(b, was, FootAt(ch[k], ts[k].total, ports)))
  }

  /** A marked channel whose transfer all other active ones among the first `upto` stay off. */
  ghost predicate LeftAlone(ch: seq<Channel>, ts: seq<Transfer>, clean: seq<bool>, k: nat, upto: nat, ports: set<nat>)
    requires |ch| == |ts| == |clean| == CHANNELS && k < CHANNELS
  {
    clean[k] && forall j :: 0 <= j < upto && j < CHANNELS && j != k && ch[j].active ==>
                  StaysOff(ch[j], FootAt(ch[k], ts[k].total, ports), ports)
  }

  /** What a tick may have done to a channel. */
  predicate Ticked(c: Channel, t: Transfer, d: Channel, u: Transfer, ports: set<nat>)
  {
    && u.total == t.total && u.moved >= t.moved && FootAt(d, u.total, ports) == FootAt(c, t.total, ports)
    && (d.active ==> c.active)
    && (!c.active ==> d == c && u == t)
    && (c.active && !d.active ==> u.completions == 1 && d.remaining == 0)
  }

  lemma NotTicked(c: Channel, t: Transfer, ports: set<nat>)
    requires !c.active
    ensures Ticked(c, t, c, t, ports)
  {
  }

  lemma TickedFoot(c: Channel, t: Transfer, d: Channel, u: Transfer, ports: set<nat>)
    requires Ticked(c, t, d, u, ports)
    ensures FootAt(d, u.total, ports) == FootAt(c, t.total, ports)
  {
  }

  lemma IsTicked(c: Channel, t: Transfer, d: Channel, u: Transfer, ports: set<nat>)
    requires c.active && u.total == t.total && u.moved >= t.moved
    requires FootAt(d, u.total, ports) == FootAt(c, t.total, ports)
    requires !d.active ==> u.completions == 1 && d.remaining == 0
    ensures Ticked(c, t, d, u, ports)
  {
  }

  lemma LessAlone(ch: seq<Channel>, ts: seq<Transfer>, clean: seq<bool>, k: nat, n: nat, ports: set<nat>)
    requires |ch| == |ts| == |clean| == CHANNELS && n < CHANNELS && k < CHANNELS
    requires LeftAlone(ch, ts, clean, k, n + 1, ports)
    ensures clean[k] && LeftAlone(ch, ts, clean, k, n, ports)
    ensures k != n && ch[n].active ==> StaysOff(ch[n], FootAt(ch[k], ts[k].total, ports), ports)
  {
    hide StaysOff, FootAt;
  }

  lemma AloneIsMarked(ch: seq<Channel>, ts: seq<Transfer>, clean: seq<bool>, ports: set<nat>)
    requires |ch| == |ts| == |clean| == CHANNELS
    ensures forall k :: 0 <= k < CHANNELS && LeftAlone(ch, ts, clean, k, 0, ports) ==> clean[k]
  {
  }

  class Dma {
    const ports: set<nat>
    var ch: seq<Channel>
    var irqstatus: seq<set<nat>>
    var irqenable: seq<set<nat>>
    var line: seq<bool>
    var engine: bool               // a tick of the engine is due
    var bus: Bus
    ghost var ts: seq<Transfer>
    // The bus each channel found when it started, and whether its registers were left alone since and everybody else
    // stayed off its source, destination and ports.
    ghost var found: seq<Bus>
    ghost var clean: seq<bool>

    ghost predicate Valid()
      reads this
    {
      && |ch| == |ts| == CHANNELS && |irqstatus| == |irqenable| == |line| == LINES
      && (forall n :: 0 <= n < CHANNELS ==> Fine(ch[n], ts[n]))
      && |found| == |clean| == CHANNELS && AllCopied(bus, ch, ts, found, clean, ports)
    }

    /** Every active channel, except one that was too big for a single call, gets another tick. */
    ghost predicate Ticking()
      reads `ch, `ts, `engine
    {
      |ch| == |ts| && forall n :: 0 <= n < |ch| && ch[n].active && !ts[n].huge ==> engine
    }

    ghost predicate LinesFollow()
      reads `line, `irqstatus, `irqenable
    {
      |line| == |irqstatus| == |irqenable| == LINES
      && forall i :: 0 <= i < LINES ==> (line[i] <==> irqstatus[i] * irqenable[i] != {})
    }

    constructor (ports: set<nat>, b: Bus)
      ensures Valid() && Ticking() && LinesFollow() && this.ports == ports && bus == b
      ensures forall n :: 0 <= n < CHANNELS ==> !ch[n].active
    {
      this.ports, bus, engine := ports, b, false;
      ch := seq(CHANNELS, _ => Channel(Ccr(false, false, false, 0), 1, 0, 0, 0, 0, {}, {}, 0, 0, 0, 0, 0, false));
      ts := seq(CHANNELS, _ => Transfer(0, 0, 0, false));
      irqstatus, irqenable, line := seq(LINES, _ => {}), seq(LINES, _ => {}), seq(LINES, _ => false);
      found, clean := seq(CHANNELS, _ => b), seq(CHANNELS, _ => false);
    }

    method UpdateIrq()
      requires |irqstatus| == |irqenable| == |line| == LINES
      modifies `line
      ensures LinesFollow()
    {
      for i := 0 to LINES
        invariant |line| == LINES
        invariant forall k :: 0 <= k < i ==> (line[k] <==> irqstatus[k] * irqenable[k] != {})
      {
        line := line[i := irqstatus[i] * irqenable[i] != {}];
      }
    }

    /** Flag a channel as done, on all interrupt lines if it asked for that. */
    method Complete(n: nat)
      requires n < |ch| == |ts| && |irqstatus| == |irqenable| == |line| == LINES
      modifies `ch, `irqstatus, `line, `ts
      ensures LinesFollow() && ch == old(ch)[n := Done(old(ch)[n])]
      ensures !ch[n].active && !ch[n].ccr.enable && ch[n].csr == old(ch)[n].csr + {FrameDone, LastDone, BlockDone}
      ensures ts == old(ts)[n := old(ts)[n].(completions := old(ts)[n].completions + 1)]
      ensures forall i :: 0 <= i < LINES ==>
                irqstatus[i] == old(irqstatus)[i]
                                + if ch[n].cicr * {FrameDone, LastDone, BlockDone} != {} then {n} else {}
    {
      var c := ch[n];
      ch := ch[n := c.(active := false, ccr := c.ccr.(enable := false), csr := c.csr + DONE_FLAGS)];
      ts := ts[n := ts[n].(completions := ts[n].completions + 1)];
      if c.cicr * DONE_FLAGS != {} {
        FlagAll(n);
      }
      UpdateIrq();
    }

    method FlagAll(n: nat)
      requires |irqstatus| == LINES
      modifies `irqstatus
      ensures |irqstatus| == LINES && forall i :: 0 <= i < LINES ==> irqstatus[i] == old(irqstatus)[i] + {n}
    {
      for i := 0 to LINES
        invariant |irqstatus| == LINES
        invariant forall k :: 0 <= k < LINES ==>
                    irqstatus[k] == if k < i then old(irqstatus)[k] + {n} else old(irqstatus)[k]
      {
        irqstatus := irqstatus[i := irqstatus[i] + {n}];
      }
    }

    /** Up to `max` elements, fewer if a data port at either end is not ready; at the last one the channel is done. */
    method StepChannel(n: nat, max: nat)
      requires Valid() && n < CHANNELS && ch[n].active
      modifies this
      ensures Valid() && unchanged(`engine, `irqenable) && (old(LinesFollow()) ==> LinesFollow())
      ensures clean == Spared(old(ch), old(ts), old(clean), n, ports) && found == old(found)
      ensures ch == old(ch)[n := ch[n]] && ts == old(ts)[n := ts[n]]
      ensures FootAt(ch[n], ts[n].total, ports) == FootAt(old(ch)[n], old(ts)[n].total, ports)
      ensures ts[n].total == old(ts)[n].total && ts[n].huge == old(ts)[n].huge && ts[n].moved >= old(ts)[n].moved
      ensures ts[n].completions == if ch[n].remaining == 0 then 1 else 0
      ensures ch[n].active <==> ch[n].remaining > 0
      ensures var c := old(ch)[n];
              OnlyInto(old(bus), bus, FootOf(c.src, c.dst, ModeOf(c, ports), c.remaining))
      ensures old(ch)[n].src !in ports && old(ch)[n].dst !in ports ==>
                ch[n].remaining == if old(ch)[n].remaining <= max then 0 else old(ch)[n].remaining - max
    {
      hide Fine, AllCopied, MidBurst, Move1, LinesFollow, OnlyInto, LeftWithin;
      var c := ch[n];
      ghost var f := FootOf(c.src, c.dst, ModeOf(c, ports), c.remaining);
      AllLeft(bus, c, ports);
      ghost var t := ts[n];
      FineActive(c, t);
      var fromPort, toPort := c.src in ports, c.dst in ports;
      BurstStarts(bus, ch, ts, found, clean, n, ports);
      clean := Spared(ch, ts, clean, n, ports);
      var moved := 0;
      while c.remaining > 0 && moved < max
        invariant c == old(ch)[n].(src := c.src, dst := c.dst, remaining := c.remaining)
        invariant moved <= max && c.remaining + moved == old(ch)[n].remaining
        invariant MidBurst(bus, ch, ts, found, clean, n, c, moved, ports)
        invariant OnlyInto(old(bus), bus, f) && LeftWithin(c, f)
        invariant unchanged(`ch, `ts, `engine, `irqenable, `irqstatus, `line, `found)
        invariant clean == Spared(old(ch), old(ts), old(clean), n, ports)
      {
        if fromPort {
          var ready := *;
          if !ready { break; }
        }
        if toPort {
          var ready := *;
          if !ready { break; }
        }
        BurstMoves(bus, ch, ts, found, clean, n, c, moved, ports);
        ElementMoved(old(bus), bus, c, f, ports);
        bus := Move1(bus, c.src, c.dst, ModeOf(c, ports));
        c := MovedOn(c);
        moved := moved + 1;
      }
      ghost var d := c;
      c := c.(csac := c.src, cdac := c.dst);
      BurstEnds(bus, ch, ts, found, clean, n, d, moved, c, t.(moved := t.moved + moved), ports);
      BurstEnds(bus, ch, ts, found, clean, n, d, moved, Done(c),
                t.(moved := t.moved + moved, completions := t.completions + 1), ports);
      FineMore(old(ch)[n], t, c, moved);
      ch := ch[n := c];
      ts := ts[n := t.(moved := t.moved + moved)];
      if c.remaining == 0 {
        Complete(n);
        assert ch == old(ch)[n := Done(c)];
        assert ts == old(ts)[n := t.(moved := t.moved + moved, completions := t.completions + 1)];
      }
    }

    /**
     * Start a transfer. A transfer of nothing is done at once, and so is one from memory to memory of up to 2^31 - 1
     * elements; one beyond that keeps a rest that no tick is set for. Any other gets a first burst and then ticks.
     */
    method Start(n: nat)
      requires Valid() && Ticking() && n < CHANNELS && ch[n].ccr.enable && !ch[n].active
      modifies this
      ensures Valid() && Ticking() && irqenable == old(irqenable) && (old(LinesFollow()) ==> LinesFollow())
      ensures ch == old(ch)[n := ch[n]] && ts == old(ts)[n := ts[n]]
      ensures ts[n].total == Elements(old(ch)[n].cen, old(ch)[n].cfn) && (ch[n].active <==> ts[n].completions == 0)
      ensures old(ch)[n].ccr.sync == 0 && old(ch)[n].cssa !in ports && old(ch)[n].cdsa !in ports ==>
                && (ts[n].huge <==> ts[n].total > INT32_MAX) && (ch[n].active <==> ts[n].total > INT32_MAX)
                && engine == old(engine)
      ensures old(ch)[n].ccr.sync != 0 || old(ch)[n].cssa in ports || old(ch)[n].cdsa in ports ==>
                !ts[n].huge && (ch[n].active ==> engine)
      ensures found == old(found)[n := old(bus)] && clean[n]
      ensures forall k :: (0 <= k < CHANNELS && k != n && old(clean)[k]
                           && StaysOff(Begun(old(ch)[n]), FootAt(old(ch)[k], old(ts)[k].total, ports), ports))
                          ==> clean[k]
    {
      hide Fine, AllCopied, LinesFollow, Elements, StaysOff, FootAt;
      Begin(n);
      if !ch[n].active { return; }
      var c := ch[n];
      if c.ccr.sync == 0 && c.src !in ports && c.dst !in ports {
        StepChannel(n, INT32_MAX);
        return;
      }
      StepChannel(n, BURST);
      if ch[n].active {
        engine := true;
      }
    }

    /** Set the transfer up; if there is nothing to move it is done. */
    method Begin(n: nat)
      requires Valid() && n < CHANNELS && ch[n].ccr.enable && !ch[n].active
      modifies this
      ensures Valid() && unchanged(`irqenable, `engine, `bus) && (old(LinesFollow()) ==> LinesFollow())
      ensures var c := Begun(old(ch)[n]);
              && ch == old(ch)[n := if c.remaining == 0 then Done(c) else c]
              && ts == old(ts)[n := Transfer(c.remaining, 0, if c.remaining == 0 then 1 else 0,
                                             MemToMem(c, ports) && c.remaining > INT32_MAX)]
      ensures found == old(found)[n := bus] && clean == old(clean)[n := true]
    {
      hide Fine, Copied, LinesFollow, Elements, Done;
      var c := Begun(ch[n]);
      ghost var huge := MemToMem(c, ports) && c.remaining > INT32_MAX;
      FineBegun(ch[n], huge);
      NothingCopied(bus, c, c.remaining, ports);
      CopiedDone(bus, bus, c, 0, c.remaining, ports);
      found, clean := found[n := bus], clean[n := true];
      ch := ch[n := c];
      ts := ts[n := Transfer(c.remaining, 0, 0, huge)];
      if c.remaining == 0 {
        Complete(n);
      }
    }

    /** A tick: every active channel gets a burst, and another tick follows while any has elements left. */
    method EngineTick()
      requires Valid() && engine
      modifies this
      ensures Valid() && irqenable == old(irqenable) && (old(LinesFollow()) ==> LinesFollow())
      ensures engine <==> !NoneActive(ch)
      ensures forall n :: 0 <= n < CHANNELS ==> Ticked(old(ch)[n], old(ts)[n], ch[n], ts[n], ports)
      ensures found == old(found)
      ensures forall k :: 0 <= k < CHANNELS && LeftAlone(old(ch), old(ts), old(clean), k, CHANNELS, ports) ==> clean[k]
    {
      hide Fine, AllCopied, LinesFollow, StaysOff, FootAt, Ticked, LeftAlone;
      engine := false;
      var pending := false;
      ghost var some: nat := 0;
      AloneIsMarked(ch, ts, clean, ports);
      for n := 0 to CHANNELS
        invariant Valid() && irqenable == old(irqenable) && (old(LinesFollow()) ==> LinesFollow()) && !engine
        invariant if pending then some < n && ch[some].active else forall k :: 0 <= k < n ==> !ch[k].active
        invariant forall k :: n <= k < CHANNELS ==> ch[k] == old(ch)[k] && ts[k] == old(ts)[k]
        invariant forall k :: 0 <= k < n ==> Ticked(old(ch)[k], old(ts)[k], ch[k], ts[k], ports)
        invariant found == old(found) && |clean| == CHANNELS
        invariant forall k :: 0 <= k < CHANNELS && LeftAlone(old(ch), old(ts), old(clean), k, n, ports) ==> clean[k]
      {
        ghost var marks, ch1, ts1 := clean, ch, ts;
        if ch[n].active {
          StepChannel(n, BURST);
          if ch[n].active { pending, some := true, n; }
          IsTicked(old(ch)[n], old(ts)[n], ch[n], ts[n], ports);
        } else {
          NotTicked(ch[n], ts[n], ports);
        }
        forall k | 0 <= k < CHANNELS && LeftAlone(old(ch), old(ts), old(clean), k, n + 1, ports) ensures clean[k] {
          LessAlone(old(ch), old(ts), old(clean), k, n, ports);
          if k < n { TickedFoot(old(ch)[k], old(ts)[k], ch1[k], ts1[k], ports); }
          assert marks[k] && FootAt(ch1[k], ts1[k].total, ports) == FootAt(old(ch)[k], old(ts)[k].total, ports);
        }
      }
      if pending {
        engine := true;
      }
    }

    /** Writing a channel's control register starts it, stops it, or changes it under way. */
    method WriteCcr(n: nat, ccr: Ccr)
      requires Valid() && Ticking() && n < CHANNELS
      modifies this
      ensures Valid() && Ticking() && (old(LinesFollow()) ==> LinesFollow())
      ensures ccr.enable && !old(ch)[n].ccr.enable ==> ts[n].total == Elements(old(ch)[n].cen, old(ch)[n].cfn)
      ensures !ccr.enable ==> !ch[n].active
      ensures forall k :: 0 <= k < CHANNELS && k != n ==> ch[k] == old(ch)[k] && ts[k] == old(ts)[k]
      ensures ccr.enable && !old(ch)[n].ccr.enable ==> clean[n] && found[n] == old(bus)
      ensures forall k :: (0 <= k < CHANNELS && k != n && old(clean)[k]
                           && StaysOff(Begun(old(ch)[n].(ccr := ccr)), FootAt(old(ch)[k], old(ts)[k].total, ports),
                                       ports))
                          ==> clean[k]
    {
      hide Copied, LinesFollow, Elements, StaysOff, FootAt;
      var was := ch[n].ccr.enable;
      clean := clean[n := false];
      ch := ch[n := ch[n].(ccr := ccr, active := ch[n].active && ccr.enable)];
      if !was && ccr.enable {
        Start(n);
      }
    }

    /** Writing what a transfer starts from; the elements' size counts at once. */
    method Configure(n: nat, es: Size, cen: nat, cfn: nat, cssa: nat, cdsa: nat, cicr: set<Flag>)
      requires Valid() && Ticking() && n < CHANNELS
      modifies `ch, `clean
      ensures Valid() && Ticking()
      ensures ch == old(ch)[n := old(ch)[n].(es := es, cen := cen, cfn := cfn, cssa := cssa, cdsa := cdsa,
                                             cicr := cicr)]
    {
      hide Copied;
      clean := clean[n := false];
      ch := ch[n := ch[n].(es := es, cen := cen, cfn := cfn, cssa := cssa, cdsa := cdsa, cicr := cicr)];
    }

    /** Somebody else uses the bus: a channel keeps its mark if that stays off its transfer. */
    method OthersUseBus(b: Bus)
      requires Valid() && Ticking()
      modifies `bus, `clean
      ensures Valid() && Ticking() && bus == b
      ensures forall k :: 0 <= k < CHANNELS ==>
                clean[k] == (old(clean)[k] && AgreeNear(b, old(bus), FootAt(ch[k], ts[k].total, ports)))
    {
      hide Fine, Copied, AgreeNear;
      ghost var was, before := bus, clean;
      clean := Marked(b, was, ch, ts, before, ports);
      bus := b;
      forall k | 0 <= k < CHANNELS && clean[k] ensures Copied(b, found[k], ch[k], ts[k].moved, ts[k].total, ports) {
        CopiedElsewhere(was, b, found[k], ch[k], ts[k].moved, ts[k].total, ports);
      }
    }

    method ClearStatus(i: nat, channels: set<nat>)
      requires Valid() && Ticking() && i < LINES
      modifies `irqstatus, `line
      ensures Valid() && Ticking() && LinesFollow() && irqstatus == old(irqstatus)[i := old(irqstatus)[i] - channels]
    {
      irqstatus := irqstatus[i := irqstatus[i] - channels];
      UpdateIrq();
    }

    method WriteEnable(i: nat, channels: set<nat>)
      requires Valid() && Ticking() && i < LINES
      modifies `irqenable, `line
      ensures Valid() && Ticking() && LinesFollow() && irqenable == old(irqenable)[i := channels]
    {
      irqenable := irqenable[i := channels];
      UpdateIrq();
    }
  }

  lemma AllLeft(b: Bus, c: Channel, ports: set<nat>)
    ensures var f := FootOf(c.src, c.dst, ModeOf(c, ports), c.remaining); OnlyInto(b, b, f) && LeftWithin(c, f)
  {
  }

  predicate NoneActive(cs: seq<Channel>) { forall k :: 0 <= k < |cs| ==> !cs[k].active }

  lemma FineBegun(c: Channel, huge: bool)
    requires c.ccr.enable
    ensures var d, k := Begun(c), Elements(c.cen, c.cfn);
            if k > 0 then Fine(d, Transfer(k, 0, 0, huge)) else Fine(Done(d), Transfer(0, 0, 1, huge))
  {
  }

  lemma FineActive(c: Channel, t: Transfer)
    requires Fine(c, t) && c.active
    ensures c.remaining > 0 && t.completions == 0 && t.moved + c.remaining == t.total
  {
  }

  lemma FineMore(c: Channel, t: Transfer, d: Channel, moved: nat)
    requires Fine(c, t) && c.active && d.active && d.ccr == c.ccr && d.remaining + moved == c.remaining
    ensures var u := t.(moved := t.moved + moved);
            if d.remaining > 0 then Fine(d, u) else Fine(Done(d), u.(completions := u.completions + 1))
  {
  }

  // ---------------------------------------------------------------- results

  /** What is moved and what is left always make up the whole, and only a whole transfer is flagged, once. */
  lemma TransferConserved(d: Dma, n: nat)
    requires d.Valid() && n < CHANNELS
    ensures d.ts[n].moved + d.ch[n].remaining == d.ts[n].total && d.ts[n].completions <= 1
    ensures d.ts[n].completions == 1 ==> d.ch[n].remaining == 0 && d.ts[n].moved == d.ts[n].total
  {
    hide AllCopied;
    assert Fine(d.ch[n], d.ts[n]);
  }

  /**
   * A channel that is done, whose registers nobody changed and whose source, destination and ports everybody else
   * stayed off, has made one uninterrupted copy of all its elements, however the channels took turns.
   */
  lemma DoneMeansCopied(d: Dma, n: nat)
    requires d.Valid() && n < CHANNELS && d.clean[n] && d.ts[n].completions == 1
    ensures var c, total := d.ch[n], d.ts[n].total;
            AgreeNear(d.bus, Copy(d.found[n], c.cssa, c.cdsa, ModeOf(c, d.ports), total), FootAt(c, total, d.ports))
  {
    hide Copy, AgreeNear;
    TransferConserved(d, n);
  }

  /** The n-th channel is done, and its registers and its transfer were left alone since it was started. */
  ghost predicate DoneAlone(d: Dma, n: nat)
    reads d
  {
    d.Valid() && n < CHANNELS && d.clean[n] && d.ts[n].completions == 1
  }

  /**
   * So after a transfer from memory to memory the destination holds, byte for byte, what the source held when it was
   * started, if the destination starts no later or lies behind it.
   */
  lemma DoneMemory(d: Dma, n: nat, i: nat)
    requires DoneAlone(d, n) && d.ch[n].ccr.srcMoves && d.ch[n].ccr.dstMoves
    requires var c, len := d.ch[n], d.ts[n].total * d.ch[n].es;
             && InMemory(c.cssa, c.cdsa, ModeOf(c, d.ports), d.ts[n].total)
             && (c.cdsa <= c.cssa || c.cssa + len <= c.cdsa) && i < len
    ensures d.bus.mem(d.ch[n].cdsa + i) == d.found[n].mem(d.ch[n].cssa + i)
  {
    hide Copy, InMemory;
    DoneMeansCopied(d, n);
    var c, total := d.ch[n], d.ts[n].total;
    MemoryCopied(d.found[n], c.cssa, c.cdsa, ModeOf(c, d.ports), total, c.cdsa + i);
    assert Near(FootAt(c, total, d.ports), c.cdsa + i);
  }

  /** After a transfer from a port the j-th element in memory is what the port's j-th read since brought. */
  lemma DoneFromPort(d: Dma, n: nat, j: nat, i: nat)
    requires DoneAlone(d, n) && !d.ch[n].ccr.srcMoves && d.ch[n].ccr.dstMoves && d.ch[n].cssa in d.ports
    requires forall k: nat :: k < d.ts[n].total ==> DstAfter(d.ch[n].cdsa, ModeOf(d.ch[n], d.ports), k) !in d.ports
    requires j < d.ts[n].total && i < d.ch[n].es
    ensures var c, was := d.ch[n], d.found[n];
            d.bus.mem(c.cdsa + j * c.es + i) == was.port(c.cssa, was.taken(c.cssa) + j, i)
  {
    hide Copy;
    DoneMeansCopied(d, n);
    var c, total := d.ch[n], d.ts[n].total;
    PortRead(d.found[n], c.cssa, c.cdsa, ModeOf(c, d.ports), total, j, i);
    MulMono(j + 1, total, c.es);
    assert Near(FootAt(c, total, d.ports), c.cdsa + j * c.es + i);
  }

  /** After a transfer to a port the elements of the source were written to it, in order, behind what was before. */
  lemma DoneToPort(d: Dma, n: nat)
    requires DoneAlone(d, n) && d.ch[n].ccr.srcMoves && !d.ch[n].ccr.dstMoves && d.ch[n].cdsa in d.ports
    requires forall k: nat :: k < d.ts[n].total ==> SrcAfter(d.ch[n].cssa, ModeOf(d.ch[n], d.ports), k) !in d.ports
    ensures var c, was := d.ch[n], d.found[n];
            d.bus.written(c.cdsa) == was.written(c.cdsa) + Sliced(was.mem, c.cssa, c.es, d.ts[n].total)
  {
    hide Copy;
    DoneMeansCopied(d, n);
    var c, total := d.ch[n], d.ts[n].total;
    PortWritten(d.found[n], c.cssa, c.cdsa, ModeOf(c, d.ports), total);
    assert Near(FootAt(c, total, d.ports), c.cdsa);
  }

  /** A copy in pieces. */
  function Pieces(b: Bus, src: nat, dst: nat, m: Mode, ks: seq<nat>): Bus
    decreases |ks|
  {
    if ks == [] then b
    else Pieces(Copy(b, src, dst, m, ks[0]), SrcAfter(src, m, ks[0]), DstAfter(dst, m, ks[0]), m, ks[1..])
  }

  function Total(ks: seq<nat>): nat
  {
    if ks == [] then 0 else ks[0] + Total(ks[1..])
  }

  /** Whatever the bursts, the pieces are one copy. */
  lemma {:induction false} PiecesAreOneCopy(b: Bus, src: nat, dst: nat, m: Mode, ks: seq<nat>)
    ensures Pieces(b, src, dst, m, ks) == Copy(b, src, dst, m, Total(ks))
    decreases |ks|
  {
    hide Move1, SrcAfter, DstAfter;
    if ks != [] {
      var k := ks[0];
      PiecesAreOneCopy(Copy(b, src, dst, m, k), SrcAfter(src, m, k), DstAfter(dst, m, k), m, ks[1..]);
      CopyMore(b, src, dst, m, k, Total(ks[1..]));
    }
  }
}
