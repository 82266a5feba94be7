/** The system mailbox: eight short FIFOs, interrupts for four users, and a responder that echoes requests. */
module Mailbox {
  import opened Numbers

  const BOXES: nat := 8
  const DEPTH: nat := 4
  const USERS: nat := 4
  const TX: nat := 3 // requests of the host
  const RX: nat := 2 // replies to it

  /** Interrupt causes as bit numbers: 2m for a message in box m, 2m + 1 for room in it. */
  type Bits = set<nat>

  function Shifted(val: nat, i: nat): nat { if i == 0 then val else Shifted(val / 2, i - 1) }

  predicate HasBit(val: nat, i: nat) { Shifted(val, i) % 2 == 1 }

  function BitsOf(val: word): Bits { set i | 0 <= i < 32 && HasBit(val, i) }

  lemma {:induction false} ShiftedDigit(val: nat, i: nat)
    ensures Shifted(val, i) % 2 == Digit(val, i)
  {
    if i > 0 { ShiftedDigit(val / 2, i - 1); }
  }

  /** The causes a register value stands for are its binary digits. */
  lemma BitsAre(val: word, i: nat)
    ensures i in BitsOf(val) <==> i < 32 && Digit(val, i) == 1
  {
    ShiftedDigit(val, i);
  }

  /** A word more in box m; a full box drops it. */
  function Added(boxes: seq<seq<word>>, m: nat, val: word): (r: seq<seq<word>>)
    requires m < |boxes|
  {
    if |boxes[m]| < DEPTH then boxes[m := boxes[m] + [val]] else boxes
  }

  function NoWords(): (r: seq<seq<word>>)
    ensures |r| == BOXES && forall m :: 0 <= m < BOXES ==> r[m] == []
  {
    seq(BOXES, _ => [])
  }

  function NoCounts(): (r: seq<nat>)
    ensures |r| == BOXES && forall m :: 0 <= m < BOXES ==> r[m] == 0
  {
    seq(BOXES, _ => 0)
  }

  function NoCauses(): (r: seq<Bits>)
    ensures |r| == USERS && forall u :: 0 <= u < USERS ==> r[u] == {}
  {
    seq(USERS, _ => {})
  }

  /** A request moved from the boxes before it to the reply behind it. */
  lemma Echoes(sent: seq<word>, echoed: seq<word>, req: seq<word>, box: seq<word>, taken: seq<word>, rep: seq<word>,
               left: seq<word>)
    requires sent == echoed + req + box && req + box == rep + left && taken + [] == echoed
    ensures sent == (echoed + rep) + [] + left && taken + rep == echoed + rep
  {
    assert echoed + req + box == echoed + (req + box);
  }

  class Mailbox {
    var fifo: array2<word>
    var count: seq<nat>
    var irqstatus: seq<Bits>
    var irqenable: seq<Bits>
    var line: seq<bool>
    var req: seq<word>
    var replyPending: bool

    // The words waiting in each box, oldest first.
    ghost var boxes: seq<seq<word>>

    // What the host sent, what came back as echo, what the host read, since the last reset; and whether the host
    // has kept to sending on one box, receiving on the other, and never more than they hold.
    ghost var sent: seq<word>
    ghost var echoed: seq<word>
    ghost var taken: seq<word>
    ghost var orderly: bool

    ghost predicate Shape()
      reads this, fifo
    {
      && |count| == |boxes| == BOXES && |irqstatus| == |irqenable| == |line| == USERS && |req| <= DEPTH
      && (forall m :: 0 <= m < BOXES ==> |boxes[m]| <= DEPTH)
      && Stored()
    }

    ghost predicate Stored()
      reads `fifo, `boxes, `count, fifo
    {
      && fifo.Length0 == |boxes| == |count| == BOXES && fifo.Length1 == DEPTH
      && (forall m :: 0 <= m < BOXES ==> count[m] == |boxes[m]| <= DEPTH)
      && (forall m, i :: 0 <= m < BOXES && 0 <= i < |boxes[m]| ==> boxes[m][i] == fifo[m, i])
    }

    /** For every user a message is flagged exactly while there is one. */
    ghost predicate Flagged()
      reads `irqstatus, `boxes
    {
      && |irqstatus| == USERS && |boxes| == BOXES
      && forall u, m :: 0 <= u < USERS && 0 <= m < BOXES ==> (2 * m in irqstatus[u] <==> boxes[m] != [])
    }

    ghost predicate LinesFollow()
      reads `line, `irqstatus, `irqenable
    {
      && |line| == |irqstatus| == |irqenable| == USERS
      && forall u :: 0 <= u < USERS ==> (line[u] <==> irqstatus[u] * irqenable[u] != {})
    }

    /** Nothing is lost on the way: to the responder, and back. */
    ghost predicate Conserved()
      requires Shape()
      reads this, fifo
    {
      orderly ==> sent == echoed + req + boxes[TX] && taken + boxes[RX] == echoed
    }

    /** Whenever a whole request has arrived, a reply is on its way. */
    ghost predicate Answering()
      requires Shape()
      reads this, fifo
    {
      |req| + |boxes[TX]| >= DEPTH ==> replyPending
    }

    ghost predicate Valid()
      reads this, fifo
    {
      Shape() && |req| < DEPTH && Flagged() && Conserved() && Answering()
    }

    constructor ()
      ensures Valid() && LinesFollow() && fresh(fifo) && sent == echoed == taken == [] && orderly
    {
      fifo := new word[BOXES, DEPTH]((_, _) => 0);
      count, boxes := NoCounts(), NoWords();
      irqstatus, irqenable, line := NoCauses(), NoCauses(), seq(USERS, _ => false);
      req, replyPending := [], false;
      sent, echoed, taken, orderly := [], [], [], true;
    }

    method UpdateIrq()
      requires Shape()
      modifies `line
      ensures Shape() && LinesFollow()
    {
      for u := 0 to USERS
        invariant Shape()
        invariant forall v :: 0 <= v < u ==> (line[v] <==> irqstatus[v] * irqenable[v] != {})
      {
        line := line[u := irqstatus[u] * irqenable[u] != {}];
      }
    }

    /** Set one cause for all users, or clear it. */
    method SetForAll(bit: nat, on: bool)
      requires Shape()
      modifies `irqstatus
      ensures Shape()
      ensures forall u :: 0 <= u < USERS ==>
                irqstatus[u] == if on then old(irqstatus)[u] + {bit} else old(irqstatus)[u] - {bit}
    {
      for u := 0 to USERS
        invariant Shape()
        invariant forall v :: 0 <= v < u ==>
                    irqstatus[v] == if on then old(irqstatus)[v] + {bit} else old(irqstatus)[v] - {bit}
        invariant forall v :: u <= v < USERS ==> irqstatus[v] == old(irqstatus)[v]
      {
        irqstatus := irqstatus[u := if on then irqstatus[u] + {bit} else irqstatus[u] - {bit}];
      }
    }

    /** A word into box m; a full box drops it. */
    method Push(m: nat, val: word)
      requires Shape() && Flagged() && m < BOXES
      modifies `count, `irqstatus, `line, `boxes, fifo
      ensures Shape() && Flagged() && LinesFollow()
      ensures boxes == Added(old(boxes), m, val)
    {
      if count[m] < DEPTH {
        fifo[m, count[m]] := val;
        count := count[m := count[m] + 1];
        boxes := boxes[m := boxes[m] + [val]];
      }
      SetForAll(2 * m, true);
      UpdateIrq();
    }

    /** The oldest word of box m, or 0 if it is empty. */
    method Pop(m: nat) returns (v: word)
      requires Shape() && Flagged() && m < BOXES
      modifies `count, `irqstatus, `line, `boxes, fifo
      ensures Shape() && Flagged() && (old(LinesFollow()) || old(boxes[m]) != [] ==> LinesFollow())
      ensures if old(boxes[m]) == [] then v == 0 && boxes == old(boxes)
              else v == old(boxes[m][0]) && boxes == old(boxes)[m := old(boxes[m][1..])]
    {
      v := 0;
      if count[m] > 0 {
        v := fifo[m, 0];
        for i := 1 to DEPTH
          modifies fifo
          invariant forall k, j :: 0 <= k < BOXES && 0 <= j < DEPTH ==>
                      fifo[k, j] == if k == m && j < i - 1 then old(fifo[m, j + 1]) else old(fifo[k, j])
        {
          fifo[m, i - 1] := fifo[m, i];
        }
        count := count[m := count[m] - 1];
        boxes := boxes[m := boxes[m][1..]];
        if count[m] == 0 { SetForAll(2 * m, false); }
        SetForAll(2 * m + 1, true);
        UpdateIrq();
      }
    }

    /** Move words from the request box to the responder until it has a whole request. */
    method Collect()
      requires Shape() && |req| < DEPTH && Flagged()
      modifies `count, `irqstatus, `line, `req, `boxes, fifo
      ensures Shape() && Flagged() && (old(LinesFollow()) ==> LinesFollow())
      ensures req + boxes[TX] == old(req + boxes[TX]) && (|req| == DEPTH || boxes[TX] == [])
      ensures boxes == old(boxes)[TX := boxes[TX]]
    {
      while count[TX] > 0 && |req| < DEPTH
        invariant Shape() && Flagged() && (old(LinesFollow()) ==> LinesFollow())
        invariant req + boxes[TX] == old(req + boxes[TX])
        invariant boxes == old(boxes)[TX := boxes[TX]]
        decreases DEPTH - |req|
      {
        ghost var before, words := req, boxes[TX];
        var v := Pop(TX);
        req := req + [v];
        assert before + [v] + boxes[TX] == before + words;
      }
    }

    /** The reply timer: collect the request, and once it is whole, echo it. */
    method DucatiReply()
      requires Valid()
      modifies this, fifo
      ensures Valid() && (old(LinesFollow()) ==> LinesFollow()) && fifo == old(fifo)
      ensures sent == old(sent) && taken == old(taken) && irqenable == old(irqenable)
      ensures var all := old(req + boxes[TX]);
              if |all| < DEPTH then req == all && boxes[TX] == [] && echoed == old(echoed) && orderly == old(orderly)
              else
                && req == [] && boxes[TX] == all[DEPTH..] && echoed == old(echoed) + all[..DEPTH]
                && orderly == (old(orderly) && old(boxes[RX]) == [])
    {
      hide Flagged, LinesFollow, Stored;
      replyPending := false;
      Collect();
      assert req + [] == req;
      if |req| < DEPTH { return; }
      var rep := req;
      ghost var all := req + boxes[TX];
      assert all[..DEPTH] == rep && all[DEPTH..] == boxes[TX];
      if orderly && boxes[RX] == [] {
        Echoes(sent, echoed, old(req), old(boxes[TX]), taken, rep, boxes[TX]);
      }
      orderly := orderly && boxes[RX] == [];
      req := [];
      echoed := echoed + rep;
      Echo(rep);
    }

    method Echo(rep: seq<word>)
      requires Shape() && Flagged() && |rep| == DEPTH
      modifies `count, `irqstatus, `line, `boxes, fifo
      ensures Shape() && Flagged() && LinesFollow() && boxes[TX] == old(boxes[TX])
      ensures old(boxes[RX]) == [] ==> boxes[RX] == rep
    {
      hide Flagged, LinesFollow, Stored;
      for i := 0 to DEPTH
        invariant Shape() && Flagged() && (i > 0 ==> LinesFollow()) && boxes[TX] == old(boxes[TX])
        invariant unchanged(`req, `irqenable, `fifo)
        invariant old(boxes[RX]) == [] ==> boxes[RX] == rep[..i]
      {
        assert rep[..i + 1] == rep[..i] + [rep[i]];
        Push(RX, rep[i]);
      }
      assert rep[..DEPTH] == rep;
    }

    // -------------------------------------------------------------- the host

    method WriteMessage(m: nat, val: word)
      requires Valid() && m < BOXES
      modifies this, fifo
      ensures Valid() && LinesFollow() && fifo == old(fifo)
      ensures boxes == Added(old(boxes), m, val)
      ensures m == TX ==> sent == old(sent) + [val] && replyPending
      ensures orderly == (old(orderly) && m != RX && (m == TX ==> old(|boxes[TX]|) < DEPTH))
      ensures echoed == old(echoed) && taken == old(taken) && req == old(req)
    {
      hide Flagged, LinesFollow, Stored;
      orderly := orderly && m != RX && (m == TX ==> |boxes[TX]| < DEPTH);
      ghost var before := echoed + req + boxes[TX];
      Push(m, val);
      if m == TX {
        sent := sent + [val];
        replyPending := true;
        assert orderly ==> before + [val] == echoed + req + boxes[TX];
      }
    }

    method ReadMessage(m: nat) returns (v: word)
      requires Valid() && m < BOXES
      modifies this, fifo
      ensures Valid() && (old(LinesFollow()) || old(boxes[m]) != [] ==> LinesFollow()) && fifo == old(fifo)
      ensures if old(boxes[m]) == [] then v == 0 && boxes == old(boxes)
              else v == old(boxes[m][0]) && boxes == old(boxes)[m := old(boxes[m][1..])]
      ensures taken == old(taken) + (if m == RX && old(boxes[RX]) != [] then [v] else [])
      ensures orderly == (old(orderly) && (m == TX ==> old(boxes[TX]) == []))
      ensures echoed == old(echoed) && sent == old(sent) && req == old(req)
    {
      orderly := orderly && (m == TX ==> boxes[TX] == []);
      ghost var some, words := count[m] > 0, boxes[m];
      v := Pop(m);
      if m == RX && some {
        taken := taken + [v];
        assert old(taken) + words == taken + boxes[RX];
      }
    }

    /** Write 1 to clear; a message flag cannot be cleared while a message is there. */
    method ClearStatus(u: nat, val: word)
      requires Valid() && u < USERS
      modifies `irqstatus, `line
      ensures Valid() && LinesFollow()
      ensures forall b :: b in irqstatus[u] <==>
                b in old(irqstatus)[u] && (b !in BitsOf(val) || (b % 2 == 0 && b / 2 < BOXES && boxes[b / 2] != []))
      ensures forall v :: 0 <= v < USERS && v != u ==> irqstatus[v] == old(irqstatus)[v]
    {
      var bits := BitsOf(val);
      for m := 0 to BOXES
        invariant forall b :: b in bits <==>
                    b in BitsOf(val) && !(b % 2 == 0 && b / 2 < m && count[b / 2] > 0)
      {
        if count[m] > 0 { bits := bits - {2 * m}; }
      }
      irqstatus := irqstatus[u := irqstatus[u] - bits];
      UpdateIrq();
    }

    method EnableSet(u: nat, val: word)
      requires Valid() && u < USERS
      modifies `irqenable, `line
      ensures Valid() && LinesFollow() && irqenable == old(irqenable)[u := old(irqenable)[u] + BitsOf(val)]
    {
      irqenable := irqenable[u := irqenable[u] + BitsOf(val)];
      UpdateIrq();
    }

    method EnableClear(u: nat, val: word)
      requires Valid() && u < USERS
      modifies `irqenable, `line
      ensures Valid() && LinesFollow() && irqenable == old(irqenable)[u := old(irqenable)[u] - BitsOf(val)]
    {
      irqenable := irqenable[u := irqenable[u] - BitsOf(val)];
      UpdateIrq();
    }

    method SoftReset()
      requires Valid()
      modifies this
      ensures Valid() && LinesFollow() && fifo == old(fifo)
      ensures forall u :: 0 <= u < USERS ==> !line[u]
      ensures sent == echoed == taken == [] && orderly
    {
      count, boxes := NoCounts(), NoWords();
      irqstatus, irqenable := NoCauses(), NoCauses();
      req := [];
      sent, echoed, taken, orderly := [], [], [], true;
      UpdateIrq();
    }

    /** The reset of the whole device: the interrupt lines keep their levels. */
    method Reset()
      requires Valid()
      modifies this
      ensures Valid() && line == old(line) && fifo == old(fifo) && !replyPending
      ensures sent == echoed == taken == [] && orderly
    {
      count, boxes := NoCounts(), NoWords();
      irqstatus, irqenable := NoCauses(), NoCauses();
      req, replyPending := [], false;
      sent, echoed, taken, orderly := [], [], [], true;
    }
  }

  /** For an orderly host: what it sent is on its way out, in the responder or back, each word once and in order. */
  lemma EveryWordAccountedFor(b: Mailbox)
    requires b.Valid() && b.orderly
    ensures b.sent == b.taken + b.boxes[RX] + b.req + b.boxes[TX]
  {
    assert b.sent == b.echoed + b.req + b.boxes[TX];
  }
}
