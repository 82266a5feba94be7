/** What completing one command writes, and which commands a kick completes. */
module SgxCommands {
  import opened Numbers
  import opened SgxSync

  predicate Bit(x: nat, weight: nat)
    requires weight > 0
  {
    x / weight % 2 == 1
  }

  /**
   * A place in a command that asks for a write: a counter's address and pending value, an address and the value
   * to leave there, or the address of a pointer to a word to be cleared, and the word eight bytes below that one,
   * to be cleared if it is 1.
   */
  datatype Slot =
    | Sync(valAt: nat, addrAt: nat)
    | Status(addrAt: nat, valAt: nat)
    | Release(addrAt: nat)
    | Mark(addrAt: nat)

  /** The write a slot asks for, as the memory stands. */
  function Asked(m: Mem, pd: nat, s: Slot): Write
  {
    var l := At(pd, Rd(m, At(pd, s.addrAt)));
    match s
    case Sync(valAt, _) => Mono(l, (Rd(m, At(pd, valAt)) + 1) % 0x1_0000_0000)
    case Status(_, valAt) => Put(l, Rd(m, At(pd, valAt)))
    case Release(_) => Put(l, 0)
    case Mark(_) => if l.dva == 0 then Put(l, 0) else Unmark(At(pd, l.dva + 0xFFFF_FFF8))
  }

  /**
   * What the host wants by a slot: a counter, now at its pending value, to be advanced; a value to be left at an
   * address; or a word to be taken back if it is 1.
   */
  datatype Demand = Advance(l: Loc, pending: word) | Leave(l: Loc, value: word) | TakeBack(l: Loc)

  function DemandOf(m: Mem, pd: nat, s: Slot): Demand
  {
    var l := At(pd, Rd(m, At(pd, s.addrAt)));
    match s
    case Sync(valAt, _) => Advance(l, Rd(m, At(pd, valAt)))
    case Status(_, valAt) => Leave(l, Rd(m, At(pd, valAt)))
    case Release(_) => Leave(l, 0)
    case Mark(_) => if l.dva == 0 then Leave(l, 0) else TakeBack(At(pd, l.dva + 0xFFFF_FFF8))
  }

  function Demands(m: Mem, pd: nat, ss: seq<Slot>): (ds: seq<Demand>)
    ensures |ds| == |ss| && forall i :: 0 <= i < |ss| ==> ds[i] == DemandOf(m, pd, ss[i])
  {
    seq(|ss|, i requires 0 <= i < |ss| => DemandOf(m, pd, ss[i]))
  }

  /** A counter is asked to move to one more than its pending value. */
  lemma AskedMeets(m: Mem, pd: nat, s: Slot)
    ensures match DemandOf(m, pd, s)
            case Advance(l, p) => Asked(m, pd, s) == Mono(l, (p + 1) % 0x1_0000_0000)
            case Leave(l, v) => Asked(m, pd, s) == Put(l, v)
            case TakeBack(l) => Asked(m, pd, s) == Unmark(l)
  {
  }

  /** The pending values of the demands on the counter at l, in order. */
  function PendingFor(ds: seq<Demand>, l: Loc): (ps: seq<word>)
    decreases |ds|
  {
    if ds == [] then []
    else
      var rest, d := PendingFor(ds[..|ds| - 1], l), ds[|ds| - 1];
      if d.Advance? && d.l == l then rest + [d.pending] else rest
  }

  /** l is demanded as a counter only. */
  predicate CounterOnly(ds: seq<Demand>, l: Loc) { forall i :: 0 <= i < |ds| && ds[i].l == l ==> ds[i].Advance? }

  /** The values asked for are one more than the pending ones. */
  lemma {:induction false} ValuesPending(m: Mem, pd: nat, ss: seq<Slot>, l: Loc)
    requires CounterOnly(Demands(m, pd, ss), l)
    ensures IsCounter(AskedAll(m, pd, ss), l)
    ensures var vs, ps := ValuesFor(AskedAll(m, pd, ss), l), PendingFor(Demands(m, pd, ss), l);
            |vs| == |ps| && forall i :: 0 <= i < |vs| ==> vs[i] == (ps[i] as nat + 1) % 0x1_0000_0000
    decreases |ss|
  {
    hide DemandOf, Asked;
    if ss != [] {
      var k := |ss| - 1;
      var ds, ws := Demands(m, pd, ss), AskedAll(m, pd, ss);
      assert ds[..k] == Demands(m, pd, ss[..k]) && ws[..k] == AskedAll(m, pd, ss[..k]);
      assert CounterOnly(ds[..k], l);
      ValuesPending(m, pd, ss[..k], l);
      AskedMeets(m, pd, ss[k]);
    }
  }

  lemma OneCount(vs: seq<word>, p: word)
    requires |vs| == 1 && vs[0] == (p as nat + 1) % 0x1_0000_0000
    ensures Same(vs, [p as nat + 1]) && Within(p, [p as nat + 1])
  {
  }

  lemma LargestOfOne(p: nat, u: nat)
    requires u > p
    ensures Largest(p, [u]) == u
  {
    assert [u][0] == u;
  }

  /** A single advance of a counter that shows its pending value takes it one further. */
  lemma OneAdvance(m: Mem, pd: nat, ss: seq<Slot>, l: Loc, p: word)
    requires CounterOnly(Demands(m, pd, ss), l) && PendingFor(Demands(m, pd, ss), l) == [p]
    requires l in m && l.dva != 0 && Rd(m, l) == p
    ensures Rd(ApplyAll(m, AskedAll(m, pd, ss)), l) == (p + 1) % 0x1_0000_0000
  {
    hide Demands, AskedAll, PendingFor, ValuesFor, ApplyAll, Rd, Largest, Same, Within, CounterOnly, IsCounter;
    ValuesPending(m, pd, ss, l);
    var us: seq<nat> := [p as nat + 1];
    OneCount(ValuesFor(AskedAll(m, pd, ss), l), p);
    CounterEndsAtLargest(m, AskedAll(m, pd, ss), l, p, p, us);
    LargestOfOne(p, p + 1);
  }

  /** One slot after another, each read when its turn comes. */
  function Perform(m: Mem, pd: nat, ss: seq<Slot>): (m': Mem)
    ensures m'.Keys == m.Keys
    decreases |ss|
  {
    if ss == [] then m
    else
      var before := Perform(m, pd, ss[..|ss| - 1]);
      Apply(before, Asked(before, pd, ss[|ss| - 1]))
  }

  function AskedAll(m: Mem, pd: nat, ss: seq<Slot>): (ws: seq<Write>)
    ensures |ws| == |ss| && forall i :: 0 <= i < |ss| ==> ws[i] == Asked(m, pd, ss[i])
  {
    seq(|ss|, i requires 0 <= i < |ss| => Asked(m, pd, ss[i]))
  }

  lemma PerformNext(m: Mem, pd: nat, ss: seq<Slot>, s: Slot)
    ensures Perform(m, pd, ss + [s]) == Apply(Perform(m, pd, ss), Asked(Perform(m, pd, ss), pd, s))
  {
    assert (ss + [s])[..|ss|] == ss;
  }

  lemma {:induction false} PerformConcat(m: Mem, pd: nat, a: seq<Slot>, b: seq<Slot>)
    ensures Perform(m, pd, a + b) == Perform(Perform(m, pd, a), pd, b)
    decreases |b|
  {
    if b == [] {
      assert a + b == a;
    } else {
      assert (a + b)[..|a + b| - 1] == a + b[..|b| - 1];
      PerformConcat(m, pd, a, b[..|b| - 1]);
    }
  }

  // ---------------------------------------------------------------- the layout of a command

  /** n sync objects of 16 bytes, pending value first. */
  function Syncs(first: nat, n: nat): (ss: seq<Slot>)
    ensures |ss| == n
  {
    seq(n, i requires 0 <= i < n => Sync(first + 16 * i, first + 16 * i + 4))
  }

  /** n pairs of address and value. */
  function Statuses(first: nat, n: nat): (ss: seq<Slot>)
    ensures |ss| == n
  {
    seq(n, i requires 0 <= i < n => Status(first + 8 * i, first + 8 * i + 4))
  }

  lemma OneMore(first: nat, n: nat)
    ensures Syncs(first, n + 1) == Syncs(first, n) + [Sync(first + 16 * n, first + 16 * n + 4)]
    ensures Statuses(first, n + 1) == Statuses(first, n) + [Status(first + 8 * n, first + 8 * n + 4)]
  {
  }

  function Word(m: Mem, pd: nat, a: nat): word { Rd(m, At(pd, a)) }

  /** A TA command's slots: sources, TA sync, TA statuses, and for a render 3D syncs, destinations, 3D statuses. */
  function TaSlots(m: Mem, pd: nat, cmd: nat): (ss: seq<Slot>)
  {
    var sh, flags := cmd + 0x50, Word(m, pd, cmd + 4);
    Syncs(sh + 0x30, Min(Word(m, pd, sh + 0x2c), 8)) + [Sync(sh + 0x14, sh + 0x18)]
    + Statuses(sh + 0xc0, Min(Word(m, pd, sh + 4), 32))
    + if Bit(flags, 2) then RenderSlots(m, pd, cmd, flags) else []
  }

  function RenderSlots(m: Mem, pd: nat, cmd: nat, flags: nat): (ss: seq<Slot>)
  {
    var sh := cmd + 0x50;
    [Sync(sh + 0x24, sh + 0x28)]
    + (if Bit(flags, 0x200) then [Sync(sh + 0xb8, sh + 0xbc)] else [])
    + TargetSlots(m, pd, Word(m, pd, cmd + 0x3c))
    + Statuses(sh + 0x1c0, Min(Word(m, pd, sh + 8), 4))
  }

  /** The render targets: their write counters, then the "in use" word and the one below it. */
  function TargetSlots(m: Mem, pd: nat, a: nat): (ss: seq<Slot>)
  {
    if a == 0 then [] else Syncs(a + 16, Min(Word(m, pd, a + 4), 16)) + [Release(a), Mark(a)]
  }

  function TransferSlots(m: Mem, pd: nat, cmd: nat): (ss: seq<Slot>)
  {
    var sh := cmd + 0x78;
    Syncs(sh + 4, Min(Word(m, pd, sh), 8))
    + Syncs(sh + 0x90, Min(Word(m, pd, sh + 0x84), 1))
    + [Sync(sh + 0x98, sh + 0x9c), Sync(sh + 0xa8, sh + 0xac)]
    + Statuses(sh + 0xbc, Min(Word(m, pd, sh + 0xb8), 4))
  }

  // ---------------------------------------------------------------- reading commands nobody overwrites

  /** R holds every word a TA command consists of: 0x230 bytes, and the list of render targets. */
  ghost predicate HoldsCommand(m: Mem, pd: nat, cmd: nat, R: set<Loc>)
  {
    && (forall a :: cmd <= a < cmd + 0x230 ==> At(pd, a) in R)
    && var t := Word(m, pd, cmd + 0x3c);
       Lists(m, pd, cmd) ==> forall a :: t <= a < t + 0x110 ==> At(pd, a) in R
  }

  /** A render command with a list of targets. */
  predicate Lists(m: Mem, pd: nat, cmd: nat) { Bit(Word(m, pd, cmd + 4), 2) && Word(m, pd, cmd + 0x3c) != 0 }

  /** R holds every word a transfer command consists of. */
  ghost predicate HoldsTransfer(pd: nat, cmd: nat, R: set<Loc>)
  {
    forall a :: cmd <= a < cmd + 0x180 ==> At(pd, a) in R
  }

  ghost predicate SlotIn(s: Slot, pd: nat, R: set<Loc>)
  {
    At(pd, s.addrAt) in R && (s.Sync? || s.Status? ==> At(pd, s.valAt) in R)
  }

  ghost predicate SlotsIn(ss: seq<Slot>, pd: nat, R: set<Loc>)
  {
    forall i :: 0 <= i < |ss| ==> SlotIn(ss[i], pd, R)
  }

  /** When the writes stay clear of the slots, reading the slots early makes no difference. */
  lemma {:induction false} PerformIsApply(m: Mem, pd: nat, ss: seq<Slot>, R: set<Loc>)
    requires SlotsIn(ss, pd, R) && Clear(AskedAll(m, pd, ss), R)
    ensures Perform(m, pd, ss) == ApplyAll(m, AskedAll(m, pd, ss)) && Agree(m, Perform(m, pd, ss), R)
    decreases |ss|
  {
    hide Asked, SlotIn, Rd, Apply;
    var ws := AskedAll(m, pd, ss);
    ClearKeeps(m, ws, R);
    if ss != [] {
      var k := |ss| - 1;
      assert ws[..k] == AskedAll(m, pd, ss[..k]);
      PerformIsApply(m, pd, ss[..k], R);
      AgreeAsk(m, Perform(m, pd, ss[..k]), pd, ss[k], R);
    }
  }

  lemma AgreeAsk(m: Mem, m': Mem, pd: nat, s: Slot, R: set<Loc>)
    requires Agree(m, m', R) && SlotIn(s, pd, R)
    ensures Asked(m, pd, s) == Asked(m', pd, s) && DemandOf(m, pd, s) == DemandOf(m', pd, s)
  {
  }

  lemma AgreeAsks(m: Mem, m': Mem, pd: nat, ss: seq<Slot>, R: set<Loc>)
    requires Agree(m, m', R) && SlotsIn(ss, pd, R)
    ensures AskedAll(m, pd, ss) == AskedAll(m', pd, ss) && Demands(m, pd, ss) == Demands(m', pd, ss)
  {
    hide Asked, DemandOf, SlotIn, Agree;
    forall i | 0 <= i < |ss|
      ensures AskedAll(m, pd, ss)[i] == AskedAll(m', pd, ss)[i] && Demands(m, pd, ss)[i] == Demands(m', pd, ss)[i]
    {
      AgreeAsk(m, m', pd, ss[i], R);
    }
  }

  lemma SyncsIn(first: nat, n: nat, pd: nat, R: set<Loc>)
    requires forall a :: first <= a < first + 16 * n ==> At(pd, a) in R
    ensures SlotsIn(Syncs(first, n), pd, R)
  {
  }

  lemma StatusesIn(first: nat, n: nat, pd: nat, R: set<Loc>)
    requires forall a :: first <= a < first + 8 * n ==> At(pd, a) in R
    ensures SlotsIn(Statuses(first, n), pd, R)
  {
  }

  lemma TaSlotsIn(m: Mem, pd: nat, cmd: nat, R: set<Loc>)
    requires HoldsCommand(m, pd, cmd, R)
    ensures SlotsIn(TaSlots(m, pd, cmd), pd, R)
  {
    hide Rd, At, SlotIn;
    var sh, flags := cmd + 0x50, Word(m, pd, cmd + 4);
    SyncsIn(sh + 0x30, Min(Word(m, pd, sh + 0x2c), 8), pd, R);
    StatusesIn(sh + 0xc0, Min(Word(m, pd, sh + 4), 32), pd, R);
    SyncsIn(sh + 0x14, 1, pd, R);
    assert Syncs(sh + 0x14, 1) == [Sync(sh + 0x14, sh + 0x18)];
    if Bit(flags, 2) { RenderSlotsIn(m, pd, cmd, flags, R); }
  }

  lemma RenderSlotsIn(m: Mem, pd: nat, cmd: nat, flags: nat, R: set<Loc>)
    requires HoldsCommand(m, pd, cmd, R) && Bit(Word(m, pd, cmd + 4), 2)
    ensures SlotsIn(RenderSlots(m, pd, cmd, flags), pd, R)
  {
    hide Rd, At, SlotIn;
    var sh, t: nat := cmd + 0x50, Word(m, pd, cmd + 0x3c);
    SyncsIn(sh + 0x24, 1, pd, R);
    SyncsIn(sh + 0xb8, 1, pd, R);
    assert Syncs(sh + 0x24, 1) == [Sync(sh + 0x24, sh + 0x28)];
    assert Syncs(sh + 0xb8, 1) == [Sync(sh + 0xb8, sh + 0xbc)];
    StatusesIn(sh + 0x1c0, Min(Word(m, pd, sh + 8), 4), pd, R);
    if t != 0 {
      SyncsIn(t + 16, Min(Word(m, pd, t + 4), 16), pd, R);
      ReleaseIn(t, pd, R);
    }
  }

  lemma ReleaseIn(t: nat, pd: nat, R: set<Loc>)
    requires At(pd, t) in R
    ensures SlotsIn([Release(t), Mark(t)], pd, R)
  {
  }

  lemma TransferSlotsIn(m: Mem, pd: nat, cmd: nat, R: set<Loc>)
    requires HoldsTransfer(pd, cmd, R)
    ensures SlotsIn(TransferSlots(m, pd, cmd), pd, R)
  {
    hide Rd, At, SlotIn;
    var sh := cmd + 0x78;
    SyncsIn(sh + 4, Min(Word(m, pd, sh), 8), pd, R);
    SyncsIn(sh + 0x90, Min(Word(m, pd, sh + 0x84), 1), pd, R);
    SyncsIn(sh + 0x98, 2, pd, R);
    assert Syncs(sh + 0x98, 2) == [Sync(sh + 0x98, sh + 0x9c), Sync(sh + 0xa8, sh + 0xac)];
    StatusesIn(sh + 0xbc, Min(Word(m, pd, sh + 0xb8), 4), pd, R);
  }

  /** What a command consists of can be read in either of two memories that agree on it. */
  lemma AgreeTa(m: Mem, m': Mem, pd: nat, cmd: nat, R: set<Loc>)
    requires HoldsCommand(m, pd, cmd, R) && Agree(m, m', R)
    ensures HoldsCommand(m', pd, cmd, R) && TaSlots(m', pd, cmd) == TaSlots(m, pd, cmd)
    ensures AskedAll(m', pd, TaSlots(m, pd, cmd)) == AskedAll(m, pd, TaSlots(m, pd, cmd))
    ensures Demands(m', pd, TaSlots(m, pd, cmd)) == Demands(m, pd, TaSlots(m, pd, cmd))
    ensures forall a :: cmd <= a < cmd + 0x230 ==> Word(m', pd, a) == Word(m, pd, a)
  {
    hide Word, At, Asked, Syncs, Statuses;
    AgreeWords(m, m', pd, cmd, R);
    TaSlotsIn(m, pd, cmd, R);
    AgreeAsks(m, m', pd, TaSlots(m, pd, cmd), R);
  }

  lemma AgreeTransfer(m: Mem, m': Mem, pd: nat, cmd: nat, R: set<Loc>)
    requires HoldsTransfer(pd, cmd, R) && Agree(m, m', R)
    ensures TransferSlots(m', pd, cmd) == TransferSlots(m, pd, cmd)
    ensures AskedAll(m', pd, TransferSlots(m, pd, cmd)) == AskedAll(m, pd, TransferSlots(m, pd, cmd))
    ensures Demands(m', pd, TransferSlots(m, pd, cmd)) == Demands(m, pd, TransferSlots(m, pd, cmd))
    ensures forall a :: cmd <= a < cmd + 0x180 ==> Word(m', pd, a) == Word(m, pd, a)
  {
    hide Word, At, Asked, Syncs, Statuses;
    AgreeTransferWords(m, m', pd, cmd, R);
    TransferSlotsIn(m, pd, cmd, R);
    AgreeAsks(m, m', pd, TransferSlots(m, pd, cmd), R);
  }

  // ---------------------------------------------------------------- a command as the program completes it

  /** The program reads every part when it comes to it; only the "in use" pointer is read ahead of the targets. */
  function TaCommand(m: Mem, pd: nat, cmd: nat): (m': Mem)
    ensures m'.Keys == m.Keys
  {
    var sh, flags := cmd + 0x50, Word(m, pd, cmd + 4);
    var m1 := Perform(m, pd, Syncs(sh + 0x30, Min(Word(m, pd, sh + 0x2c), 8)));
    var m2 := Perform(m1, pd, [Sync(sh + 0x14, sh + 0x18)]);
    var m3 := Perform(m2, pd, Statuses(sh + 0xc0, Min(Word(m2, pd, sh + 4), 32)));
    if Bit(flags, 2) then Render(m3, pd, cmd, flags) else m3
  }

  function Render(m: Mem, pd: nat, cmd: nat, flags: nat): (m': Mem)
    ensures m'.Keys == m.Keys
  {
    var sh := cmd + 0x50;
    var m1 := Perform(m, pd, [Sync(sh + 0x24, sh + 0x28)]);
    var m2 := if Bit(flags, 0x200) then Perform(m1, pd, [Sync(sh + 0xb8, sh + 0xbc)]) else m1;
    var m3 := Targets(m2, pd, Word(m2, pd, cmd + 0x3c));
    Perform(m3, pd, Statuses(sh + 0x1c0, Min(Word(m3, pd, sh + 8), 4)))
  }

  function Targets(m: Mem, pd: nat, a: nat): (m': Mem)
    ensures m'.Keys == m.Keys
  {
    if a == 0 then m
    else
      var inUse, below := Asked(m, pd, Release(a)), Asked(m, pd, Mark(a));
      Apply(Apply(Perform(m, pd, Syncs(a + 16, Min(Word(m, pd, a + 4), 16))), inUse), below)
  }

  function TransferCommand(m: Mem, pd: nat, cmd: nat): (m': Mem)
    ensures m'.Keys == m.Keys
  {
    var sh := cmd + 0x78;
    var m1 := Perform(m, pd, Syncs(sh + 4, Min(Word(m, pd, sh), 8)));
    var m2 := Perform(m1, pd, Syncs(sh + 0x90, Min(Word(m1, pd, sh + 0x84), 1)));
    var m3 := Perform(m2, pd, [Sync(sh + 0x98, sh + 0x9c)]);
    var m4 := Perform(m3, pd, [Sync(sh + 0xa8, sh + 0xac)]);
    Perform(m4, pd, Statuses(sh + 0xbc, Min(Word(m4, pd, sh + 0xb8), 4)))
  }

  /** A part of the slots, after those before it. */
  lemma PartPerforms(m: Mem, pd: nat, a: seq<Slot>, b: seq<Slot>, R: set<Loc>) returns (m': Mem)
    requires SlotsIn(a + b, pd, R) && Clear(AskedAll(m, pd, a + b), R)
    ensures m' == Perform(m, pd, a) && Agree(m, m', R)
    ensures SlotsIn(a, pd, R) && Clear(AskedAll(m, pd, a), R)
    ensures SlotsIn(b, pd, R) && Clear(AskedAll(m', pd, b), R)
    ensures Perform(m, pd, a + b) == Perform(m', pd, b)
  {
    hide Rd, At, Asked, SlotIn;
    m' := Perform(m, pd, a);
    forall i | 0 <= i < |a| ensures SlotIn(a[i], pd, R) && AskedAll(m, pd, a)[i].l !in R {
      assert (a + b)[i] == a[i];
      assert AskedAll(m, pd, a + b)[i] == AskedAll(m, pd, a)[i];
    }
    forall i | 0 <= i < |b| ensures SlotIn(b[i], pd, R) && AskedAll(m, pd, b)[i].l !in R {
      assert (a + b)[|a| + i] == b[i];
      assert AskedAll(m, pd, a + b)[|a| + i] == AskedAll(m, pd, b)[i];
    }
    PerformIsApply(m, pd, a, R);
    PerformConcat(m, pd, a, b);
    AgreeAsks(m, m', pd, b, R);
  }

  /**
   * A command whose words no write touches is completed by exactly the writes it asks for: every counter
   * towards its pending value plus one, every status value, and nothing else.
   */
  lemma TaCommandCompletes(m: Mem, pd: nat, cmd: nat, R: set<Loc>)
    requires HoldsCommand(m, pd, cmd, R) && Clear(AskedAll(m, pd, TaSlots(m, pd, cmd)), R)
    ensures TaCommand(m, pd, cmd) == ApplyAll(m, AskedAll(m, pd, TaSlots(m, pd, cmd)))
    ensures Agree(m, TaCommand(m, pd, cmd), R)
  {
    hide Rd, At, Asked, Perform, HoldsCommand, RenderSlots, Render, Syncs, Statuses, SlotsIn, Clear;
    var sh, flags := cmd + 0x50, Word(m, pd, cmd + 4);
    var s1, s2 := Syncs(sh + 0x30, Min(Word(m, pd, sh + 0x2c), 8)), [Sync(sh + 0x14, sh + 0x18)];
    var s3 := Statuses(sh + 0xc0, Min(Word(m, pd, sh + 4), 32));
    var s4 := if Bit(flags, 2) then RenderSlots(m, pd, cmd, flags) else [];
    TaSlotsIn(m, pd, cmd, R);
    PerformIsApply(m, pd, TaSlots(m, pd, cmd), R);
    var m3 := PartPerforms(m, pd, s1 + s2 + s3, s4, R);
    var m2 := PartPerforms(m, pd, s1 + s2, s3, R);
    var m1 := PartPerforms(m, pd, s1, s2, R);
    AgreeWords(m, m2, pd, cmd, R);
    AgreeWords(m, m3, pd, cmd, R);
    if Bit(flags, 2) {
      AgreeRenderSlots(m, m3, pd, cmd, flags, R);
      RenderCompletes(m3, pd, cmd, flags, R);
    } else {
      assert Perform(m3, pd, []) == m3 by { NothingPerformed(m3, pd); }
    }
  }

  lemma NothingPerformed(m: Mem, pd: nat)
    ensures Perform(m, pd, []) == m
  {
  }

  lemma AgreeWords(m: Mem, m': Mem, pd: nat, cmd: nat, R: set<Loc>)
    requires HoldsCommand(m, pd, cmd, R) && Agree(m, m', R)
    ensures HoldsCommand(m', pd, cmd, R)
    ensures forall a :: cmd <= a < cmd + 0x230 ==> Word(m', pd, a) == Word(m, pd, a)
    ensures var t: nat := Word(m, pd, cmd + 0x3c);
            Lists(m, pd, cmd) ==> forall a :: t <= a < t + 0x110 ==> Word(m', pd, a) == Word(m, pd, a)
  {
    hide Rd, At;
    var t: nat := Word(m, pd, cmd + 0x3c);
    forall a | cmd <= a < cmd + 0x230 ensures Word(m', pd, a) == Word(m, pd, a) { assert At(pd, a) in R; }
    if Lists(m, pd, cmd) {
      forall a | t <= a < t + 0x110 ensures Word(m', pd, a) == Word(m, pd, a) { assert At(pd, a) in R; }
    }
  }

  lemma AgreeRenderSlots(m: Mem, m': Mem, pd: nat, cmd: nat, flags: nat, R: set<Loc>)
    requires HoldsCommand(m, pd, cmd, R) && Agree(m, m', R) && Bit(Word(m, pd, cmd + 4), 2)
    ensures RenderSlots(m', pd, cmd, flags) == RenderSlots(m, pd, cmd, flags)
  {
    hide Word;
    AgreeWords(m, m', pd, cmd, R);
  }

  lemma RenderCompletes(m: Mem, pd: nat, cmd: nat, flags: nat, R: set<Loc>)
    requires HoldsCommand(m, pd, cmd, R) && Bit(Word(m, pd, cmd + 4), 2)
    requires SlotsIn(RenderSlots(m, pd, cmd, flags), pd, R)
    requires Clear(AskedAll(m, pd, RenderSlots(m, pd, cmd, flags)), R)
    ensures Render(m, pd, cmd, flags) == Perform(m, pd, RenderSlots(m, pd, cmd, flags))
  {
    hide Rd, At, Asked, Perform, HoldsCommand, Syncs, Statuses, SlotsIn, Clear, Targets, TargetSlots;
    var sh, t: nat := cmd + 0x50, Word(m, pd, cmd + 0x3c);
    var s1 := [Sync(sh + 0x24, sh + 0x28)];
    var s2 := if Bit(flags, 0x200) then [Sync(sh + 0xb8, sh + 0xbc)] else [];
    var s3 := TargetSlots(m, pd, t);
    var s4 := Statuses(sh + 0x1c0, Min(Word(m, pd, sh + 8), 4));
    var m3 := PartPerforms(m, pd, s1 + s2 + s3, s4, R);
    var m2 := PartPerforms(m, pd, s1 + s2, s3, R);
    var m1 := PartPerforms(m, pd, s1, s2, R);
    NothingPerformed(m1, pd);
    AgreeWords(m, m2, pd, cmd, R);
    AgreeWords(m, m3, pd, cmd, R);
    AgreeTargets(m, m2, pd, cmd, R);
    TargetsComplete(m2, pd, cmd, R);
  }

  lemma AgreeTargets(m: Mem, m': Mem, pd: nat, cmd: nat, R: set<Loc>)
    requires HoldsCommand(m, pd, cmd, R) && Agree(m, m', R) && Bit(Word(m, pd, cmd + 4), 2)
    ensures TargetSlots(m', pd, Word(m', pd, cmd + 0x3c)) == TargetSlots(m, pd, Word(m, pd, cmd + 0x3c))
  {
    hide Word;
    AgreeWords(m, m', pd, cmd, R);
  }

  lemma TargetsComplete(m: Mem, pd: nat, cmd: nat, R: set<Loc>)
    requires HoldsCommand(m, pd, cmd, R) && Bit(Word(m, pd, cmd + 4), 2)
    requires var ss := TargetSlots(m, pd, Word(m, pd, cmd + 0x3c)); SlotsIn(ss, pd, R) && Clear(AskedAll(m, pd, ss), R)
    ensures Targets(m, pd, Word(m, pd, cmd + 0x3c)) == Perform(m, pd, TargetSlots(m, pd, Word(m, pd, cmd + 0x3c)))
  {
    hide Rd, At, Perform, HoldsCommand, Syncs, SlotsIn, Clear;
    var t: nat := Word(m, pd, cmd + 0x3c);
    if t == 0 {
      NothingPerformed(m, pd);
    } else {
      var syncs := Syncs(t + 16, Min(Word(m, pd, t + 4), 16));
      assert syncs + [Release(t), Mark(t)] == syncs + [Release(t)] + [Mark(t)];
      var m2 := PartPerforms(m, pd, syncs + [Release(t)], [Mark(t)], R);
      var m1 := PartPerforms(m, pd, syncs, [Release(t)], R);
      AgreeWords(m, m1, pd, cmd, R);
      AgreeWords(m, m2, pd, cmd, R);
      assert Word(m1, pd, t) == Word(m2, pd, t) == Word(m, pd, t);
      OnePerformed(m1, pd, Release(t));
      OnePerformed(m2, pd, Mark(t));
    }
  }

  lemma OnePerformed(m: Mem, pd: nat, s: Slot)
    ensures Perform(m, pd, [s]) == Apply(m, Asked(m, pd, s))
  {
    assert [s][..0] == [];
  }

  lemma TransferCommandCompletes(m: Mem, pd: nat, cmd: nat, R: set<Loc>)
    requires HoldsTransfer(pd, cmd, R) && Clear(AskedAll(m, pd, TransferSlots(m, pd, cmd)), R)
    ensures TransferCommand(m, pd, cmd) == ApplyAll(m, AskedAll(m, pd, TransferSlots(m, pd, cmd)))
    ensures Agree(m, TransferCommand(m, pd, cmd), R)
  {
    hide Rd, At, Asked, Perform, HoldsTransfer, Syncs, Statuses, SlotsIn, Clear;
    var sh := cmd + 0x78;
    var s1, s2 := Syncs(sh + 4, Min(Word(m, pd, sh), 8)), Syncs(sh + 0x90, Min(Word(m, pd, sh + 0x84), 1));
    var a, b := Sync(sh + 0x98, sh + 0x9c), Sync(sh + 0xa8, sh + 0xac);
    var s5 := Statuses(sh + 0xbc, Min(Word(m, pd, sh + 0xb8), 4));
    assert s1 + s2 + [a, b] == s1 + s2 + [a] + [b];
    TransferSlotsIn(m, pd, cmd, R);
    PerformIsApply(m, pd, TransferSlots(m, pd, cmd), R);
    var m4 := PartPerforms(m, pd, s1 + s2 + [a] + [b], s5, R);
    var m3 := PartPerforms(m, pd, s1 + s2 + [a], [b], R);
    var m2 := PartPerforms(m, pd, s1 + s2, [a], R);
    var m1 := PartPerforms(m, pd, s1, s2, R);
    AgreeTransferWords(m, m1, pd, cmd, R);
    AgreeTransferWords(m, m4, pd, cmd, R);
  }

  lemma AgreeTransferWords(m: Mem, m': Mem, pd: nat, cmd: nat, R: set<Loc>)
    requires HoldsTransfer(pd, cmd, R) && Agree(m, m', R)
    ensures forall a :: cmd <= a < cmd + 0x180 ==> Word(m', pd, a) == Word(m, pd, a)
  {
    hide Rd, At;
    forall a | cmd <= a < cmd + 0x180 ensures Word(m', pd, a) == Word(m, pd, a) { assert At(pd, a) in R; }
  }
}
