/** Kicks: a client queue is worked off command by command, and the kernel's ring slot by slot. */
module SgxKicks {
  import opened Numbers
  import opened SgxSync
  import opened SgxCommands

  /** A client's ring of TA or transfer commands: its directory, buffer and control block (write, read offset). */
  datatype Queue = Queue(transfer: bool, pd: nat, base: nat, ctl: nat)

  const MOST: nat := 64

  predicate Ready(q: Queue, m: Mem, rd: nat)
  {
    q.transfer || (Bit(Word(m, q.pd, q.base + rd + 0x50), 1) && 0 < Word(m, q.pd, q.base + rd) <= 0x1_0000)
  }

  /** A transfer command of odd size counts as the usual 0x180 bytes. */
  function Size(q: Queue, m: Mem, rd: nat): nat
  {
    if !q.transfer then Word(m, q.pd, q.base + rd)
    else
      var size := Word(m, q.pd, q.base + rd + 0x70);
      if size == 0 || size > 0x1_0000 || size % 64 != 0 then 0x180 else size
  }

  function Next(q: Queue, m: Mem, rd: nat): nat { (rd + Size(q, m, rd)) % 0x1_0000 }

  function Command(q: Queue, m: Mem, rd: nat): (m': Mem)
    ensures m'.Keys == m.Keys
  {
    if q.transfer then TransferCommand(m, q.pd, q.base + rd) else TaCommand(m, q.pd, q.base + rd)
  }

  function SlotsOf(q: Queue, m: Mem, rd: nat): seq<Slot>
  {
    if q.transfer then TransferSlots(m, q.pd, q.base + rd) else TaSlots(m, q.pd, q.base + rd)
  }

  /** The program's loop: offsets, size and readiness are read anew for every command. */
  function Kick(q: Queue, m: Mem, guard: nat): (m': Mem)
    ensures m'.Keys == m.Keys
  {
    var wr, rd := Word(m, q.pd, q.ctl), Word(m, q.pd, q.ctl + 4);
    if guard == 0 || rd == wr || !Ready(q, m, rd) then m
    else Kick(q, Wr(Command(q, m, rd), At(q.pd, q.ctl + 4), Next(q, m, rd)), guard - 1)
  }

  // ---------------------------------------------------------------- the commands a kick takes

  /** The offsets of the commands taken, as the queue stands before the kick, from rd on. */
  function Taken(q: Queue, m: Mem, wr: nat, rd: nat, guard: nat): seq<nat>
    decreases guard
  {
    if guard == 0 || rd == wr || !Ready(q, m, rd) then []
    else [rd] + Taken(q, m, wr, Next(q, m, rd), guard - 1)
  }

  /** Where the queue is read from next. */
  function Left(q: Queue, m: Mem, wr: nat, rd: nat, guard: nat): nat
    decreases guard
  {
    if guard == 0 || rd == wr || !Ready(q, m, rd) then rd else Left(q, m, wr, Next(q, m, rd), guard - 1)
  }

  /** A run of consecutive ready commands from rd to `end`. */
  predicate IsRun(q: Queue, m: Mem, wr: nat, rds: seq<nat>, rd: nat, end: nat)
  {
    if rds == [] then end == rd
    else
      && rds[0] == rd && rd != wr && Ready(q, m, rd)
      && IsRun(q, m, wr, rds[1..], Next(q, m, rd), end)
  }

  /** The commands taken are the longest run of ready, well-formed commands, and no more than the limit. */
  lemma {:induction false} TakenIsLongest(q: Queue, m: Mem, wr: nat, rd: nat, guard: nat, rds: seq<nat>, end: nat)
    requires |rds| <= guard && IsRun(q, m, wr, rds, rd, end)
    ensures var t := Taken(q, m, wr, rd, guard);
            IsRun(q, m, wr, t, rd, Left(q, m, wr, rd, guard)) && |t| <= guard && rds <= t
    decreases guard
  {
    hide Ready, Next;
    if guard > 0 && rd != wr && Ready(q, m, rd) {
      if rds == [] {
        TakenIsLongest(q, m, wr, Next(q, m, rd), guard - 1, [], Next(q, m, rd));
      } else {
        TakenIsLongest(q, m, wr, Next(q, m, rd), guard - 1, rds[1..], end);
        assert rds == [rd] + rds[1..];
      }
      var t := Taken(q, m, wr, rd, guard);
      assert t[1..] == Taken(q, m, wr, Next(q, m, rd), guard - 1);
    }
  }

  /** All writes the commands ask for, in order. */
  function WritesOf(q: Queue, m: Mem, rds: seq<nat>): seq<Write>
  {
    if rds == [] then [] else AskedAll(m, q.pd, SlotsOf(q, m, rds[0])) + WritesOf(q, m, rds[1..])
  }

  /** R holds every word the command at an offset consists of. */
  ghost predicate Holds(q: Queue, m: Mem, rd: nat, R: set<Loc>)
  {
    if q.transfer then HoldsTransfer(q.pd, q.base + rd, R) else HoldsCommand(m, q.pd, q.base + rd, R)
  }

  ghost predicate HoldsAll(q: Queue, m: Mem, rds: seq<nat>, R: set<Loc>)
  {
    forall i :: 0 <= i < |rds| ==> Holds(q, m, rds[i], R)
  }

  /** It holds the commands a kick looks at: those it takes and, if one is left, the next. */
  ghost predicate HoldsTaken(q: Queue, m: Mem, wr: nat, rd: nat, guard: nat, R: set<Loc>)
  {
    && HoldsAll(q, m, Taken(q, m, wr, rd, guard), R)
    && (Left(q, m, wr, rd, guard) != wr ==> Holds(q, m, Left(q, m, wr, rd, guard), R))
  }

  /** Nothing that is read is written: commands, control block, counters and status words are apart. */
  ghost predicate Apart(q: Queue, m: Mem, wr: nat, rd: nat, guard: nat, R: set<Loc>)
  {
    var rds := Taken(q, m, wr, rd, guard);
    && HoldsTaken(q, m, wr, rd, guard, R)
    && At(q.pd, q.ctl) in R && At(q.pd, q.ctl + 4) in m && At(q.pd, q.ctl + 4) !in R
    && Clear(WritesOf(q, m, rds), R + {At(q.pd, q.ctl + 4)})
  }

  // ---------------------------------------------------------------- a kick completes what it takes

  lemma AgreeCommand(q: Queue, m: Mem, m': Mem, rd: nat, R: set<Loc>)
    requires Holds(q, m, rd, R) && Agree(m, m', R)
    ensures Holds(q, m', rd, R)
    ensures Ready(q, m', rd) == Ready(q, m, rd) && Next(q, m', rd) == Next(q, m, rd)
    ensures AskedAll(m', q.pd, SlotsOf(q, m', rd)) == AskedAll(m, q.pd, SlotsOf(q, m, rd))
    ensures Demands(m', q.pd, SlotsOf(q, m', rd)) == Demands(m, q.pd, SlotsOf(q, m, rd))
  {
    hide Word, HoldsCommand, HoldsTransfer, Agree, TaSlots, TransferSlots;
    if q.transfer {
      AgreeTransfer(m, m', q.pd, q.base + rd, R);
    } else {
      AgreeTa(m, m', q.pd, q.base + rd, R);
    }
  }

  /** What is looked at first is held, and so is what is looked at from the next command on. */
  lemma HoldsFirst(q: Queue, m: Mem, wr: nat, rd: nat, guard: nat, R: set<Loc>)
    requires HoldsTaken(q, m, wr, rd, guard, R) && rd != wr
    ensures Holds(q, m, rd, R)
    ensures guard > 0 && Ready(q, m, rd) ==> HoldsTaken(q, m, wr, Next(q, m, rd), guard - 1, R)
  {
    hide Holds, Ready, Next;
    if guard > 0 && Ready(q, m, rd) {
      var rest := Taken(q, m, wr, Next(q, m, rd), guard - 1);
      assert Taken(q, m, wr, rd, guard) == [rd] + rest;
      assert ([rd] + rest)[0] == rd;
      assert forall i :: 0 <= i < |rest| ==> rest[i] == ([rd] + rest)[i + 1];
    }
  }

  lemma {:induction false} AgreeTaken(q: Queue, m: Mem, m': Mem, wr: nat, rd: nat, guard: nat, R: set<Loc>)
    requires Agree(m, m', R) && HoldsTaken(q, m, wr, rd, guard, R)
    ensures Taken(q, m', wr, rd, guard) == Taken(q, m, wr, rd, guard)
    ensures Left(q, m', wr, rd, guard) == Left(q, m, wr, rd, guard)
    ensures WritesOf(q, m', Taken(q, m, wr, rd, guard)) == WritesOf(q, m, Taken(q, m, wr, rd, guard))
    ensures HoldsTaken(q, m', wr, rd, guard, R)
    decreases guard
  {
    hide Ready, Next, Holds, Agree, SlotsOf;
    if rd != wr {
      HoldsFirst(q, m, wr, rd, guard, R);
      AgreeCommand(q, m, m', rd, R);
      if guard > 0 && Ready(q, m, rd) {
        AgreeTaken(q, m, m', wr, Next(q, m, rd), guard - 1, R);
        var rest := Taken(q, m, wr, Next(q, m, rd), guard - 1);
        assert Taken(q, m, wr, rd, guard)[1..] == rest;
        HoldsCons(q, m', rd, rest, R);
      }
    }
  }

  lemma HoldsCons(q: Queue, m: Mem, rd: nat, rest: seq<nat>, R: set<Loc>)
    requires HoldsAll(q, m, rest, R) && Holds(q, m, rd, R)
    ensures HoldsAll(q, m, [rd] + rest, R)
  {
    hide Holds;
  }

  lemma CommandCompletes(q: Queue, m: Mem, rd: nat, R: set<Loc>)
    requires Holds(q, m, rd, R) && Clear(AskedAll(m, q.pd, SlotsOf(q, m, rd)), R)
    ensures Command(q, m, rd) == ApplyAll(m, AskedAll(m, q.pd, SlotsOf(q, m, rd)))
  {
    hide HoldsCommand, HoldsTransfer, TaCommand, TransferCommand, TaSlots, TransferSlots, ApplyAll, Clear, Asked;
    if q.transfer {
      TransferCommandCompletes(m, q.pd, q.base + rd, R);
    } else {
      TaCommandCompletes(m, q.pd, q.base + rd, R);
    }
  }

  /** A command on whose way nothing else lies takes a counter that shows its pending value one further. */
  lemma CommandAdvances(q: Queue, m: Mem, rd: nat, R: set<Loc>, l: Loc, p: word)
    requires Holds(q, m, rd, R) && Clear(AskedAll(m, q.pd, SlotsOf(q, m, rd)), R)
    requires var ds := Demands(m, q.pd, SlotsOf(q, m, rd)); CounterOnly(ds, l) && PendingFor(ds, l) == [p]
    requires l in m && l.dva != 0 && Rd(m, l) == p
    ensures Rd(Command(q, m, rd), l) == (p + 1) % 0x1_0000_0000
  {
    hide Holds, Clear, AskedAll, Demands, SlotsOf, CounterOnly, PendingFor, Command, ApplyAll, Rd;
    CommandCompletes(q, m, rd, R);
    OneAdvance(m, q.pd, SlotsOf(q, m, rd), l, p);
  }

  /** The read offset moves on, and every write the commands taken ask for is made, once and in order. */
  lemma {:induction false} KickCompletes(q: Queue, m: Mem, guard: nat, R: set<Loc>)
    requires var wr, rd := Word(m, q.pd, q.ctl), Word(m, q.pd, q.ctl + 4); Apart(q, m, wr, rd, guard, R)
    ensures var wr, rd := Word(m, q.pd, q.ctl), Word(m, q.pd, q.ctl + 4);
            var end := Left(q, m, wr, rd, guard);
            end < 0x1_0000_0000
            && Kick(q, m, guard)
               == Wr(ApplyAll(m, WritesOf(q, m, Taken(q, m, wr, rd, guard))), At(q.pd, q.ctl + 4), end)
    decreases guard
  {
    hide Ready, Size, Holds, SlotsOf, Command, At;
    var wr: nat, rd: nat := Word(m, q.pd, q.ctl), Word(m, q.pd, q.ctl + 4);
    var l := At(q.pd, q.ctl + 4);
    if guard == 0 || rd == wr || !Ready(q, m, rd) {
      assert m[l := m[l]] == m;
    } else {
      var next := Next(q, m, rd);
      var here, rest := AskedAll(m, q.pd, SlotsOf(q, m, rd)), Taken(q, m, wr, next, guard - 1);
      var later := WritesOf(q, m, rest);
      FirstOf(q, m, wr, rd, guard, R);
      CommandCompletes(q, m, rd, R);
      var m1 := Command(q, m, rd);
      var m2 := Wr(m1, l, next);
      ClearKeeps(m, here, R);
      assert Agree(m, m2, R);
      AgreeTaken(q, m, m2, wr, next, guard - 1, R);
      assert Rd(m2, l) == next;
      KickCompletes(q, m2, guard - 1, R);
      ElsewhereAll(m1, l, next, later, R);
      ApplyConcat(m, here, later);
      var end := Left(q, m, wr, next, guard - 1);
      WrTwice(ApplyAll(m1, later), l, next, end);
    }
  }

  lemma WrTwice(m: Mem, l: Loc, v: word, w: word)
    ensures Wr(Wr(m, l, v), l, w) == Wr(m, l, w)
  {
  }

  lemma ElsewhereAll(m: Mem, l: Loc, v: word, ws: seq<Write>, R: set<Loc>)
    requires Clear(ws, R + {l})
    ensures ApplyAll(Wr(m, l, v), ws) == Wr(ApplyAll(m, ws), l, v)
  {
    hide ApplyAll;
    ApplyAllElsewhere(m, l, v, ws);
  }

  /** What being apart says about the first command taken and about the rest. */
  lemma FirstOf(q: Queue, m: Mem, wr: nat, rd: nat, guard: nat, R: set<Loc>)
    requires Apart(q, m, wr, rd, guard, R) && guard > 0 && rd != wr && Ready(q, m, rd)
    ensures Taken(q, m, wr, rd, guard) == [rd] + Taken(q, m, wr, Next(q, m, rd), guard - 1)
    ensures WritesOf(q, m, Taken(q, m, wr, rd, guard))
         == AskedAll(m, q.pd, SlotsOf(q, m, rd)) + WritesOf(q, m, Taken(q, m, wr, Next(q, m, rd), guard - 1))
    ensures Holds(q, m, rd, R) && Clear(AskedAll(m, q.pd, SlotsOf(q, m, rd)), R)
    ensures Apart(q, m, wr, Next(q, m, rd), guard - 1, R)
  {
    hide Ready, Next, Holds, SlotsOf, At;
    var here, rest := AskedAll(m, q.pd, SlotsOf(q, m, rd)), Taken(q, m, wr, Next(q, m, rd), guard - 1);
    assert ([rd] + rest)[1..] == rest;
    HoldsFirst(q, m, wr, rd, guard, R);
    ClearParts(here, WritesOf(q, m, rest), R, At(q.pd, q.ctl + 4));
  }

  lemma ClearParts(a: seq<Write>, b: seq<Write>, R: set<Loc>, l: Loc)
    requires Clear(a + b, R + {l})
    ensures Clear(a, R) && Clear(a, R + {l}) && Clear(b, R + {l})
  {
    forall i | 0 <= i < |a| ensures a[i].l !in R + {l} { assert (a + b)[i] == a[i]; }
    forall i | 0 <= i < |b| ensures b[i].l !in R + {l} { assert (a + b)[|a| + i] == b[i]; }
  }

  // ---------------------------------------------------------------- commands of 64 KB

  /** The read offset stays exactly behind a command of 64 KB, TA or transfer. */
  lemma StaysExactly(q: Queue, m: Mem, rd: nat)
    requires rd < 0x1_0000 && Ready(q, m, rd)
    ensures Next(q, m, rd) == rd <==> Size(q, m, rd) == 0x1_0000
  {
    assert 0 < Size(q, m, rd) <= 0x1_0000;
  }

  /** Such a command is taken as often as the kick's limit allows, and the next kick finds it again. */
  lemma {:induction false} TakenOverAndOver(q: Queue, m: Mem, wr: nat, rd: nat, guard: nat)
    requires rd < 0x1_0000 && rd != wr && Ready(q, m, rd) && Size(q, m, rd) == 0x1_0000
    ensures Taken(q, m, wr, rd, guard) == seq(guard, _ => rd) && Left(q, m, wr, rd, guard) == rd
    decreases guard
  {
    hide Ready, Size;
    if guard > 0 {
      TakenOverAndOver(q, m, wr, rd, guard - 1);
      assert seq(guard, _ => rd) == [rd] + seq(guard - 1, _ => rd);
    }
  }

  /** In any other case no command is taken twice in a row. */
  lemma {:induction false} NotTwiceInARow(q: Queue, m: Mem, wr: nat, rd: nat, guard: nat, i: nat)
    requires rd < 0x1_0000 && i + 1 < |Taken(q, m, wr, rd, guard)|
    ensures var rds := Taken(q, m, wr, rd, guard);
            rds[i] < 0x1_0000 && (rds[i + 1] == rds[i] <==> Size(q, m, rds[i]) == 0x1_0000)
    decreases guard
  {
    hide Ready, Size;
    var next := Next(q, m, rd);
    if i == 0 {
      StaysExactly(q, m, rd);
      assert Taken(q, m, wr, next, guard - 1)[0] == next;
    } else {
      NotTwiceInARow(q, m, wr, next, guard - 1, i - 1);
    }
  }
}
