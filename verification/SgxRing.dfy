/** What the kernel's ring holds, worked off, is a run of kicks and stores: its results apply to the ring. */
module SgxRing {
  import opened Numbers
  import opened SgxSync
  import opened SgxCommands
  import opened SgxKicks
  import opened Sgx
  import opened SgxRun
  import opened Wrappers

  // ---------------------------------------------------------------- one command as an event

  /** The client a kick is for. */
  function ClientOf(u: Setup, transfer: bool, context: nat, n: nat): (i: Option<nat>)
    requires n <= |u.clients|
    ensures i.Some? ==>
              i.value < n && u.clients[i.value].context == context && u.clients[i.value].q.transfer == transfer
  {
    if n == 0 then None
    else if u.clients[n - 1].context == context && u.clients[n - 1].q.transfer == transfer then Some(n - 1)
    else ClientOf(u, transfer, context, n - 1)
  }

  /** The client a command kicks, if it is a kick of one. */
  function Kicks(u: Setup, d: Device, devinfo: nat, e: seq<word>): (i: Option<nat>)
    requires |e| == 8
    ensures i.Some? ==> i.value < |u.clients|
  {
    var t := TypeFrom(d.cpu, devinfo, e[0], 0);
    if t <= 1 then ClientOf(u, t == 1, e[3], |u.clients|) else None
  }

  /** The words that differ. */
  function Changes(m: Mem, m': Mem): map<Loc, word>
  {
    map l | l in m' && m'[l] != Rd(m, l) :: m'[l]
  }

  lemma ChangesStored(m: Mem, m': Mem)
    requires m.Keys == m'.Keys
    ensures Stored(m, Changes(m, m')) == m'
  {
  }

  function EventOf(u: Setup, d: Device, devinfo: nat, e: seq<word>): (v: Event)
    requires |e| == 8
    ensures !v.Submit? && (v.Kicked? ==> v.i < |u.clients|)
  {
    var i := Kicks(u, d, devinfo, e);
    if i.Some? then Kicked(i.value) else Store(Changes(d.mem, Effect(d, u.kpd, devinfo, e).mem))
  }

  /** The effect of a command is that of its event. */
  lemma EffectIsEvent(u: Setup, s: State, d: Device, devinfo: nat, e: seq<word>)
    requires |e| == 8 && |s.waiting| == |u.clients| && s.mem == d.mem
    ensures After(u, s, EventOf(u, d, devinfo, e)).mem == Effect(d, u.kpd, devinfo, e).mem
    ensures After(u, s, EventOf(u, d, devinfo, e)).issued == s.issued
  {
    hide Changes, Stored, Kick, ClientQueue, MiscInfo, NumberTaken;
    EffectMapped(d, u.kpd, devinfo, e);
    if Kicks(u, d, devinfo, e).None? { ChangesStored(d.mem, Effect(d, u.kpd, devinfo, e).mem); }
  }

  lemma EffectMapped(d: Device, kpd: nat, devinfo: nat, e: seq<word>)
    requires |e| == 8
    ensures Effect(d, kpd, devinfo, e).mem.Keys == d.mem.Keys
  {
    hide MiscInfo, Answered, TypeFrom, ClientQueue;
    KickMapped(ClientQueue(d.mem, kpd, false, e[3]), d.mem, MOST);
    KickMapped(ClientQueue(d.mem, kpd, true, e[3]), d.mem, MOST);
  }

  lemma {:induction false} KickMapped(q: Queue, m: Mem, guard: nat)
    ensures Kick(q, m, guard).Keys == m.Keys
    decreases guard
  {
  }

  // ---------------------------------------------------------------- the ring as a run

  /** The events of the commands in the slots, one after another. */
  function EventsOf(u: Setup, d: Device, devinfo: nat, base: nat, slots: seq<nat>): (evs: seq<Event>)
    ensures |evs| == |slots|
    ensures forall i :: 0 <= i < |evs| ==> !evs[i].Submit? && (evs[i].Kicked? ==> evs[i].i < |u.clients|)
    decreases |slots|
  {
    if slots == [] then []
    else
      var e := SlotWords(d.cpu, base + slots[0] * 32);
      [EventOf(u, d, devinfo, e)] + EventsOf(u, Effect(d, u.kpd, devinfo, e), devinfo, base, slots[1..])
  }

  /** The words queues and counter depend on. */
  function Watched(u: Setup): set<Loc> { u.R + ReadOffsets(u) + {u.l} }

  /** A command that kicks no client of ours leaves the words we depend on alone. */
  ghost predicate Quiet(u: Setup, d: Device, devinfo: nat, e: seq<word>)
    requires |e| == 8
  {
    Kicks(u, d, devinfo, e).None? ==> Agree(d.mem, Effect(d, u.kpd, devinfo, e).mem, Watched(u))
  }

  ghost predicate AllQuiet(u: Setup, d: Device, devinfo: nat, base: nat, slots: seq<nat>)
    decreases |slots|
  {
    slots != [] ==>
      var e := SlotWords(d.cpu, base + slots[0] * 32);
      Quiet(u, d, devinfo, e) && AllQuiet(u, Effect(d, u.kpd, devinfo, e), devinfo, base, slots[1..])
  }

  /** Commands other than kicks and requests for information are quiet, and those too with their block elsewhere. */
  lemma QuietWhen(u: Setup, d: Device, devinfo: nat, e: seq<word>)
    requires |e| == 8 && TypeFrom(d.cpu, devinfo, e[0], 0) > 1
    requires TypeFrom(d.cpu, devinfo, e[0], 0) == 6 ==> Elsewhere(u.kpd, e[3], Watched(u))
    ensures Quiet(u, d, devinfo, e)
  {
    hide Watched, TypeFrom, Answered, Elsewhere, MiscInfo, TaKick, TransferKick;
    if TypeFrom(d.cpu, devinfo, e[0], 0) == 6 { MiscInfoElsewhere(d.mem, d.cpu, u.kpd, devinfo, e[3], Watched(u)); }
  }

  /** A block of 21 words outside R. */
  ghost predicate Elsewhere(pd: nat, block: nat, R: set<Loc>)
  {
    forall k :: 0 <= k < 21 ==> At(pd, block + 4 * k) !in R
  }

  lemma MiscInfoElsewhere(m: Mem, c: CpuMem, pd: nat, devinfo: nat, block: nat, R: set<Loc>)
    requires Elsewhere(pd, block, R)
    ensures Agree(m, MiscInfo(m, c, pd, devinfo, block), R)
  {
    hide At, Ldr;
    assert At(pd, block + 4 * 0) !in R && At(pd, block + 4 * 3) !in R && At(pd, block + 4 * 4) !in R;
    assert At(pd, block + 4 * 6) !in R && At(pd, block + 4 * 7) !in R;
    VersionsElsewhere(MiscHead(m, c, pd, devinfo, block), c, pd, devinfo, block, 13, R);
  }

  lemma {:induction false} VersionsElsewhere(m: Mem, c: CpuMem, pd: nat, devinfo: nat, block: nat, n: nat, R: set<Loc>)
    requires n <= 13 && Elsewhere(pd, block, R)
    ensures Agree(m, Versions(m, c, pd, devinfo, block, n), R)
    decreases n
  {
    hide At, Ldr;
    if n > 0 {
      VersionsElsewhere(m, c, pd, devinfo, block, n - 1, R);
      assert At(pd, block + 4 * (7 + n)) !in R;
      assert block + 4 * (7 + n) == block + 0x20 + 4 * (n - 1);
    }
  }

  lemma QuietIsHarmless(u: Setup, s: State, m': Mem, cur: nat)
    requires Inv(u, s, cur) && Agree(s.mem, m', Watched(u))
    ensures Harmless(u, s, Changes(s.mem, m'), -1)
  {
    hide Chain, AllSound, SameOps, At, InWindow, BeyondWait, Stored;
    var words := Changes(s.mem, m');
    ChangesStored(s.mem, m');
    assert Agree(s.mem, m', u.R);
    forall j | 0 <= j < |u.clients|
      ensures RdAt(u.clients[j].q) !in words && WrAt(u.clients[j].q) !in words && Described(u, m', u.clients[j])
      ensures SameOps(u, u.clients[j].q, s.mem, m', s.waiting[j])
    {
      var c := u.clients[j];
      assert ClientApart(u, c) && Queued(u, s.mem, c, s.waiting[j]);
      IsReadOffset(u, c);
      AgreeOps(u, c.q, s.mem, m', s.waiting[j]);
    }
  }

  /** The event of a quiet command is legal. */
  lemma EventLegal(u: Setup, s: State, d: Device, devinfo: nat, e: seq<word>, cur: nat)
    requires |e| == 8 && Inv(u, s, cur) && s.mem == d.mem && Quiet(u, d, devinfo, e)
    ensures Legal(u, s, EventOf(u, d, devinfo, e))
  {
    hide Changes, Effect, Harmless, Agree, Separate, Queued, InWindow, BeyondWait;
    if Kicks(u, d, devinfo, e).None? { QuietIsHarmless(u, s, Effect(d, u.kpd, devinfo, e).mem, cur); }
  }

  /**
   * Working off the ring after a run goes on with a run: one kick or store for every slot, in order. What it leaves
   * in memory is what the run leaves there.
   */
  lemma {:induction false} WorkContinues(u: Setup, s: State, evs: seq<Event>, d: Device, devinfo: nat, base: nat,
                                         slots: seq<nat>)
    requires Starts(u, s) && LegalRun(u, s, evs) && Run(u, s, evs).mem == d.mem
    requires AllQuiet(u, d, devinfo, base, slots)
    ensures LegalRun(u, s, evs + EventsOf(u, d, devinfo, base, slots))
    ensures var t := Run(u, s, evs + EventsOf(u, d, devinfo, base, slots));
            t.mem == Work(d, u.kpd, devinfo, base, slots).mem && t.issued == Run(u, s, evs).issued
    decreases |slots|
  {
    hide Effect, EventOf, Legal, Starts, Quiet, After, Work, EventsOf, Run, AllQuiet, SlotWords;
    assert |s.waiting| == |u.clients| by { ClientsWait(u, s); }
    if slots == [] {
      NoSlots(u, d, devinfo, base);
      assert evs + [] == evs;
    } else {
      FirstSlot(u, d, devinfo, base, slots);
      var e := SlotWords(d.cpu, base + slots[0] * 32);
      var v, next := EventOf(u, d, devinfo, e), Effect(d, u.kpd, devinfo, e);
      SlotContinues(u, s, evs, d, devinfo, e);
      WorkContinues(u, s, evs + [v], next, devinfo, base, slots[1..]);
      var rest := EventsOf(u, next, devinfo, base, slots[1..]);
      assert evs + [v] + rest == evs + ([v] + rest);
    }
  }

  /** One command after a run is one more event. */
  lemma SlotContinues(u: Setup, s: State, evs: seq<Event>, d: Device, devinfo: nat, e: seq<word>)
    requires |s.waiting| == |u.clients| && |e| == 8
    requires Starts(u, s) && LegalRun(u, s, evs) && Run(u, s, evs).mem == d.mem && Quiet(u, d, devinfo, e)
    ensures var evs' := evs + [EventOf(u, d, devinfo, e)];
            && LegalRun(u, s, evs') && Run(u, s, evs').mem == Effect(d, u.kpd, devinfo, e).mem
            && Run(u, s, evs').issued == Run(u, s, evs).issued
  {
    hide Effect, EventOf, Legal, Starts, Quiet, After, Run, Inv;
    var cur := RunKeeps(u, s, evs);
    EventLegal(u, Run(u, s, evs), d, devinfo, e, cur);
    OneMoreEvent(u, s, evs, EventOf(u, d, devinfo, e));
    EffectIsEvent(u, Run(u, s, evs), d, devinfo, e);
  }

  lemma ClientsWait(u: Setup, s: State)
    requires Starts(u, s)
    ensures |s.waiting| == |u.clients|
  {
  }

  lemma NoSlots(u: Setup, d: Device, devinfo: nat, base: nat)
    ensures EventsOf(u, d, devinfo, base, []) == [] && Work(d, u.kpd, devinfo, base, []) == d
  {
  }

  lemma FirstSlot(u: Setup, d: Device, devinfo: nat, base: nat, slots: seq<nat>)
    requires slots != [] && AllQuiet(u, d, devinfo, base, slots)
    ensures var e := SlotWords(d.cpu, base + slots[0] * 32);
            var next := Effect(d, u.kpd, devinfo, e);
            && Quiet(u, d, devinfo, e) && AllQuiet(u, next, devinfo, base, slots[1..])
            && EventsOf(u, d, devinfo, base, slots)
               == [EventOf(u, d, devinfo, e)] + EventsOf(u, next, devinfo, base, slots[1..])
            && Work(d, u.kpd, devinfo, base, slots) == Work(next, u.kpd, devinfo, base, slots[1..])
  {
    hide Effect, EventOf, Quiet, SlotWords;
  }

  lemma OneMoreEvent(u: Setup, s: State, evs: seq<Event>, v: Event)
    requires |s.waiting| == |u.clients| && LegalRun(u, s, evs) && (!v.Store? ==> v.i < |u.clients|)
    requires Legal(u, Run(u, s, evs), v)
    ensures LegalRun(u, s, evs + [v]) && Run(u, s, evs + [v]) == After(u, Run(u, s, evs), v)
  {
    assert (evs + [v])[..|evs|] == evs;
  }

  /**
   * So when a doorbell has made the microkernel consume its ring and every client queue is drained then, the counter
   * shows its pending count.
   */
  lemma ConsumedMeansPending(u: Setup, s: State, evs: seq<Event>, d: Device, devinfo: nat)
    requires Starts(u, s) && LegalRun(u, s, evs) && Run(u, s, evs).mem == d.mem
    requires var r := RingAt(d.cpu, devinfo);
             r.Some? ==> AllQuiet(u, d, devinfo, r.value.base, Slots(r.value.start, r.value.end))
    requires Drained(u, Consumed(d, u.kpd, devinfo).mem)
    ensures Rd(Consumed(d, u.kpd, devinfo).mem, u.l) == Run(u, s, evs).issued % 0x1_0000_0000
  {
    hide Work, AllQuiet, LegalRun, Run, EventsOf, Slots, Drained, Starts, RingAt;
    var r := RingAt(d.cpu, devinfo);
    if r.None? {
      DrainedMeansPending(u, s, evs);
    } else {
      var slots := Slots(r.value.start, r.value.end);
      WorkContinues(u, s, evs, d, devinfo, r.value.base, slots);
      DrainedMeansPending(u, s, evs + EventsOf(u, d, devinfo, r.value.base, slots));
    }
  }
}
