/** One remote call: a stop-and-wait master, the slave, and a byte queue each way between them. */
module RcifLink {
  import opened Bytes
  import opened Numbers
  import opened RcifFrames
  import opened RcifSlave

  /** What is fixed during a call: the request, the slave before it, and the sizes the master works with. */
  datatype Call = Call(clock: Clock, frame: seq<byte>, slave: Slave, s: nat, m: nat)

  /**
   * Sending: everything written so far is acknowledged. AwaitAck: the last chunk written is not.
   * Reading: `got` of the reply is read, and the present part ends at `stop`.
   */
  datatype Master = Sending(sent: nat) | AwaitAck(sent: nat) | Reading(got: seq<byte>, stop: nat)
                  | Done(reply: seq<byte>) | Failed

  /** The queues, and for the record the ACKs the master read and sent, those the slave used up, and all it sent. */
  datatype System = System(master: Master, toSlave: seq<byte>, slave: Slave, toMaster: seq<byte>,
                           acksRead: nat, acksSent: nat, waits: nat, heard: seq<byte>)

  function Answered(c: Call): Answer
    requires Sane(c.slave) && IsFrame(c.frame)
  {
    ReplyTo(c.slave.(calls := c.slave.calls + 1), IdOf(c.frame), c.frame[8..|c.frame| - 1], c.clock)
  }

  /**
   * A slave at rest, a request with a correct checksum that cannot be taken for the start byte, chunks no
   * smaller than a header, and reply parts as the slave cuts them once it has handled the request.
   */
  predicate Good(c: Call) { Asked(c) && c.s >= 8 }

  /** All of it but the size of the chunks. */
  predicate Asked(c: Call)
  {
    && Sane(c.slave) && c.slave.mode.Idle? && c.slave.buf == [] && c.slave.acked == 0
    && IsFrame(c.frame) && XorSum(c.frame) == 0 && (c.slave.started || c.frame[0] != START_BYTE)
    && c.s == c.slave.s && c.m == Answered(c).slave.m
  }

  function Reply(c: Call): (f: seq<byte>)
    requires Good(c)
    ensures |f| >= 13
  {
    Frame(IdOf(c.frame), Answered(c).payload)
  }

  function Init(c: Call): System { System(Sending(0), [], c.slave, [], 0, 0, 0, []) }

  // ---------------------------------------------------------------- steps

  predicate MasterSends(c: Call, x: System, y: System)
  {
    && x.master.Sending? && x.master.sent < |c.frame|
    && var end := Min(x.master.sent + c.s, |c.frame|);
       y == x.(master := AwaitAck(end), toSlave := x.toSlave + c.frame[x.master.sent..end])
  }

  predicate MasterHears(c: Call, x: System, y: System)
  {
    && x.master.AwaitAck? && x.toMaster != []
    && var rest := x.(toMaster := x.toMaster[1..]);
       y == if x.toMaster[0] != ACK_OK then rest.(master := Failed)
            else if x.master.sent < |c.frame| then rest.(master := Sending(x.master.sent), acksRead := x.acksRead + 1)
            else rest.(master := Reading([], 9), acksRead := x.acksRead + 1)
  }

  /** Some of the bytes that are there; at the end of a part, on to the next, with an ACK after all but the first 9. */
  predicate MasterReads(c: Call, x: System, y: System, k: nat)
  {
    && x.master.Reading? && 1 <= k <= |x.toMaster| && |x.master.got| + k <= x.master.stop && c.m > 9
    && var got := x.master.got + x.toMaster[..k];
       var rest := x.(toMaster := x.toMaster[k..]);
       if |got| < x.master.stop then y == rest.(master := Reading(got, x.master.stop))
       else
         && |got| >= 6
         && var total := 9 + Get16(got, 4);
            if |got| >= total then y == rest.(master := Done(got))
            else
              var next := rest.(master := Reading(got, Min(total, |got| + c.m - 9)));
              y == if |got| == 9 then next
                   else next.(toSlave := x.toSlave + [ACK_OK], acksSent := x.acksSent + 1)
  }

  /** Some of the bytes that are there reach the slave in one read. */
  predicate SlaveReads(c: Call, x: System, y: System, k: nat)
  {
    && 1 <= k <= |x.toSlave| && Sane(x.slave)
    && var e := Data(x.toSlave[..k]);
       var r := Receive(c.clock, x.slave, e);
       y == x.(toSlave := x.toSlave[k..], slave := r.slave, toMaster := x.toMaster + r.out,
               waits := x.waits + if IsAck(x.slave, e) then 1 else 0, heard := x.heard + r.out)
  }

  datatype Step = MSend | MHear | MRead(k: nat) | SRead(k: nat)

  predicate Next(c: Call, x: System, st: Step, y: System)
  {
    match st
    case MSend => MasterSends(c, x, y)
    case MHear => MasterHears(c, x, y)
    case MRead(k) => MasterReads(c, x, y, k)
    case SRead(k) => SlaveReads(c, x, y, k)
  }

  // ---------------------------------------------------------------- the invariant

  function Oks(n: nat): (a: seq<byte>)
    ensures |a| == n
  {
    seq(n, _ => ACK_OK)
  }

  /** The length of n chunks of the request. */
  function Chunks(c: Call, n: nat): nat { n * c.s }

  /** Where the i-th part of the reply after the first 9 bytes ends. */
  function Bound(c: Call, i: nat): (n: nat)
    requires Good(c)
    ensures 9 <= n <= |Reply(c)|
  {
    WidthPositive(c);
    Stop(|Reply(c)|, c.m - 9, i)
  }

  function Stop(total: nat, width: nat, i: nat): (n: nat)
    requires total >= 9
    ensures 9 <= n <= total
  {
    if i == 0 then 9 else Min(total, Stop(total, width, i - 1) + width)
  }

  lemma WidthPositive(c: Call)
    requires Good(c)
    ensures c.m > 9
  {
    hide XorSum, IdOf, Frame;
  }

  lemma BoundStep(c: Call, i: nat)
    requires Good(c)
    ensures c.m > 9
    ensures Bound(c, i + 1) == Min(|Reply(c)|, Bound(c, i) + (c.m - 9))
  {
    hide Good, Reply;
    WidthPositive(c);
  }

  /** The slave with r bytes of the request, `acked` of them acknowledged. */
  function Part(c: Call, r: nat, acked: nat): Slave
    requires r <= |c.frame|
  {
    c.slave.(buf := c.frame[..r], acked := acked)
  }

  /** The slave with `pos` bytes of the reply sent. */
  function Replying(c: Call, pos: nat): Slave
    requires Good(c)
  {
    Answered(c).slave.(buf := [], acked := 0, mode := if pos < |Reply(c)| then Waiting(Reply(c), pos) else Idle)
  }

  /** A chunk is under way: partly received, received and acknowledged, or it was the last and got handled. */
  predicate ChunkUnderWay(c: Call, x: System, sent: nat)
    requires Good(c)
  {
    var prev := Chunks(c, x.acksRead);
    && prev < |c.frame| && sent == Min(prev + c.s, |c.frame|)
    && ((prev <= |x.slave.buf| < sent && x.slave == Part(c, |x.slave.buf|, prev)
         && x.toSlave == c.frame[|x.slave.buf|..sent] && x.toMaster == [])
        || (sent < |c.frame| && x.slave == Part(c, sent, sent) && x.toSlave == [] && x.toMaster == [ACK_OK])
        || (sent == |c.frame| && x.slave == Replying(c, Bound(c, 1)) && x.toSlave == []
            && x.toMaster == [ACK_OK] + Reply(c)[..Bound(c, 1)]))
  }

  /** A part of the reply is under way, or its acknowledgement is. */
  predicate ReplyUnderWay(c: Call, x: System, got: seq<byte>, stop: nat)
    requires Good(c)
  {
    var f, pos := Reply(c), Bound(c, x.waits + 1);
    && |got| < stop <= |f| && got == f[..|got|] && Bound(c, x.waits) < |f| && x.slave == Replying(c, pos)
    && ((x.acksSent == x.waits && x.toSlave == [] && |got| <= pos && x.toMaster == f[|got|..pos]
         && (stop == pos || (stop == 9 && x.waits == 0)) && (stop == 9 || |got| >= 9))
        || (x.acksSent == x.waits + 1 && x.toSlave == [ACK_OK] && |got| == pos && x.toMaster == []
            && stop == Bound(c, x.waits + 2)))
  }

  predicate Inv(c: Call, x: System)
  {
    && Good(c)
    && match x.master
       case Sending(sent) =>
         && sent < |c.frame| && sent == Chunks(c, x.acksRead) && x.slave == Part(c, sent, sent)
         && x.toSlave == [] && x.toMaster == [] && x.acksSent == x.waits == 0 && x.heard == Oks(x.acksRead)
       case AwaitAck(sent) =>
         && ChunkUnderWay(c, x, sent) && x.acksSent == x.waits == 0
         && x.heard == Oks(x.acksRead) + x.toMaster
       case Reading(got, stop) =>
         && ReplyUnderWay(c, x, got, stop) && x.acksRead == CeilDiv(|c.frame|, c.s)
         && x.heard == Oks(x.acksRead) + got + x.toMaster
       case Done(reply) =>
         && reply == Reply(c) && x.toSlave == [] && x.toMaster == [] && x.slave == Replying(c, |reply|)
         && x.acksRead == CeilDiv(|c.frame|, c.s) && x.heard == Oks(x.acksRead) + reply
         && x.acksSent == x.waits == CeilDiv(|reply| - 9, c.m - 9) - 1
       case Failed => false
  }

  lemma InitInv(c: Call)
    requires Good(c)
    ensures Inv(c, Init(c))
  {
    assert c.frame[..0] == [];
    assert Part(c, 0, 0) == c.slave;
  }

  // ---------------------------------------------------------------- what the slave does in those states

  lemma OneAck(prev: nat, s: nat, total: nat)
    requires s > 0 && prev + s < total
    ensures AckedTo(prev, s, prev + s, total) == prev + s && Acks(prev, s, prev + s, total) == [ACK_OK]
  {
    assert Acks(prev + s, s, prev + s, total) == [];
  }

  /** Part of a chunk: an ACK exactly when the chunk becomes complete and is not the last. */
  lemma SlavePart(c: Call, r: nat, prev: nat, k: nat)
    requires Good(c) && prev <= r && r + k < |c.frame| && r < prev + c.s && r + k <= prev + c.s && k >= 1
    requires prev > 0 ==> r >= 8
    ensures Sane(Part(c, r, prev))
    ensures Receive(c.clock, Part(c, r, prev), Data(c.frame[r..r + k]))
         == if r + k < prev + c.s then Run(Part(c, r + k, prev), [], [])
            else Run(Part(c, r + k, r + k), [ACK_OK], [])
  {
    hide Handle, XorSum, ReplyTo;
    var sl := Part(c, r, prev);
    assert sl.buf + c.frame[r..r + k] == c.frame[..r + k];
    if r + k >= 8 {
      assert c.frame[..r + k] + c.frame[r + k..] == c.frame;
      AnnouncedPrefix(c.frame[..r + k], c.frame[r + k..]);
      assert Announced(c.frame[..r + k]) == |c.frame|;
      var to, acks := AckedTo(prev, c.s, r + k, |c.frame|), Acks(prev, c.s, r + k, |c.frame|);
      assert Drain(c.clock, Part(c, r + k, prev)) == Run(Part(c, r + k, to), acks, []);
      if r + k == prev + c.s { OneAck(prev, c.s, |c.frame|); }
    } else {
      assert Drain(c.clock, Part(c, r + k, prev)) == Run(Part(c, r + k, prev), [], []);
    }
  }

  /** The last byte: the request is handled, acknowledged, and the first part of the reply sent. */
  lemma SlaveWhole(c: Call, r: nat, prev: nat)
    requires Good(c) && prev <= r < |c.frame|
    ensures Sane(Part(c, r, prev)) && |c.frame[r..]| > 0
    ensures Receive(c.clock, Part(c, r, prev), Data(c.frame[r..]))
         == Run(Replying(c, Bound(c, 1)), [ACK_OK] + Reply(c)[..Bound(c, 1)], [c.frame])
  {
    var sl := Part(c, r, prev);
    assert sl.buf + c.frame[r..] == c.frame;
    ChecksumZero(c.frame);
    assert c.frame[..|c.frame|] == c.frame && c.frame[|c.frame|..] == [];
    SlaveHandles(c, sl.(buf := c.frame));
  }

  lemma SlaveHandles(c: Call, sl: Slave)
    requires Good(c) && Sane(sl) && sl == c.slave.(buf := c.frame, acked := sl.acked)
    ensures Drain(c.clock, sl)
         == Run(Replying(c, Bound(c, 1)), [ACK_OK] + Reply(c)[..Bound(c, 1)], [c.frame])
  {
    hide XorSum, Frame, ReplyTo, Announced, IdOf, Stop;
    ChecksumZero(c.frame);
    FirstBound(c);
    assert c.frame[..|c.frame|] == c.frame && c.frame[|c.frame|..] == [];
    AnswersAlike(c, sl);
    var h := Handle(c.clock, c.slave.(buf := [], acked := 0), c.frame);
    assert h == Run(Replying(c, Bound(c, 1)), [ACK_OK] + Reply(c)[..Bound(c, 1)], [c.frame]);
    if h.slave.mode.Idle? {
      assert h.out + [] == h.out;
    }
  }

  lemma FirstBound(c: Call)
    requires Good(c)
    ensures Bound(c, 0) == 9 && Bound(c, 1) == Min(|Reply(c)|, c.m)
  {
    hide Good, Reply;
    WidthPositive(c);
  }

  lemma AnswersAlike(c: Call, sl: Slave)
    requires Good(c)
    ensures c.slave.(buf := [], acked := 0) == c.slave
  {
  }

  /** An acknowledgement: the next part of the reply. */
  lemma SlaveNextPart(c: Call, i: nat)
    requires Good(c) && Bound(c, i) < |Reply(c)| && i >= 1
    ensures Sane(Replying(c, Bound(c, i))) && Bound(c, i) <= Bound(c, i + 1)
    ensures Receive(c.clock, Replying(c, Bound(c, i)), Data([ACK_OK]))
         == Run(Replying(c, Bound(c, i + 1)), Reply(c)[Bound(c, i)..Bound(c, i + 1)], [])
  {
    hide Frame, ReplyTo;
    BoundStep(c, i);
    var sl := Replying(c, Bound(c, i));
    assert sl.buf + [ACK_OK][1..] == [];
    var part := Reply(c)[Bound(c, i)..Bound(c, i + 1)];
    assert part + [] == part;
  }

  // ---------------------------------------------------------------- every step keeps the invariant

  lemma ChunksStep(c: Call, n: nat)
    ensures Chunks(c, 0) == 0 && Chunks(c, n + 1) == Chunks(c, n) + c.s
  {
  }

  lemma OksStep(n: nat, rest: seq<byte>)
    ensures Oks(n) + ([ACK_OK] + rest) == Oks(n + 1) + rest
  {
  }

  lemma SendKeeps(c: Call, x: System, y: System)
    requires Inv(c, x) && MasterSends(c, x, y)
    ensures Inv(c, y)
  {
    hide Good, Chunks, Replying, Reply, Bound;
    var sent := x.master.sent;
    assert Oks(x.acksRead) + [] == Oks(x.acksRead);
    assert [] + c.frame[sent..y.master.sent] == c.frame[sent..y.master.sent];
    SizesPositive(c);
  }

  lemma SizesPositive(c: Call)
    requires Good(c)
    ensures c.s >= 8 && c.m > 9 && |c.frame| >= 9
  {
    WidthPositive(c);
  }

  lemma HearKeeps(c: Call, x: System, y: System)
    requires Inv(c, x) && MasterHears(c, x, y)
    ensures Inv(c, y)
  {
    hide Good, Chunks, Replying, Reply, Stop, Bound, Oks, CeilDiv, Part;
    SizesPositive(c);
    ChunksStep(c, x.acksRead);
    OksStep(x.acksRead, x.toMaster[1..]);
    assert [ACK_OK] + x.toMaster[1..] == x.toMaster;
    if x.master.sent < |c.frame| {
      NothingAhead(Oks(x.acksRead + 1), [], []);
    } else {
      FirstBound(c);
      BoundStep(c, 0);
      LastChunk(c, x.acksRead);
      NothingAhead(Oks(x.acksRead + 1), [], y.toMaster);
      assert Reply(c)[..0] == [] && Reply(c)[0..Bound(c, 1)] == Reply(c)[..Bound(c, 1)];
    }
  }

  /** The chunk that reaches the end of the request is the last of ceil(L / S). */
  lemma LastChunk(c: Call, n: nat)
    requires c.s > 0 && Chunks(c, n) < |c.frame| <= Chunks(c, n) + c.s
    ensures n + 1 == CeilDiv(|c.frame|, c.s)
  {
    CeilIs(|c.frame|, c.s, n);
  }

  lemma CeilIs(a: nat, b: nat, n: nat)
    requires b > 0 && n * b < a <= n * b + b
    ensures n + 1 == CeilDiv(a, b)
  {
    var r := CeilDiv(a, b);
    if r < n + 1 { MulMono(r, n, b); } else if r > n + 1 { MulMono(n + 2, r, b); }
  }

  /** The part that reaches the end of the reply is the last of ceil((L - 9) / width). */
  lemma LastStop(total: nat, width: nat, i: nat)
    requires total >= 9 && width > 0 && Stop(total, width, i) < total == Stop(total, width, i + 1)
    ensures i + 1 == CeilDiv(total - 9, width)
  {
    StopIs(total, width, i);
    CeilIs(total - 9, width, i);
  }

  lemma {:induction false} StopIs(total: nat, width: nat, i: nat)
    requires total >= 9 && Stop(total, width, i) < total
    ensures Stop(total, width, i) == 9 + i * width
  {
    if i > 0 {
      StopIs(total, width, i - 1);
      assert i * width == (i - 1) * width + width;
    }
  }

  /** The length field of a reply, once its first nine bytes are there. */
  lemma ReplyLength(c: Call, got: seq<byte>)
    requires Good(c) && 9 <= |got| <= |Reply(c)| && got == Reply(c)[..|got|]
    ensures 9 + Get16(got, 4) == |Reply(c)|
  {
    hide XorSum, IdOf, Announced, ReplyTo;
    FrameFields(IdOf(c.frame), Answered(c).payload);
    assert Get16(got, 4) == Get16(Reply(c), 4);
  }

  lemma ReadKeeps(c: Call, x: System, y: System, k: nat)
    requires Inv(c, x) && MasterReads(c, x, y, k)
    ensures Inv(c, y)
  {
    hide Good, Replying, Reply, Stop, Oks, CeilDiv, Bound;
    var f, pos, g := Reply(c), Bound(c, x.waits + 1), |x.master.got|;
    var got := x.master.got + x.toMaster[..k];
    MovesOver(f, g, k, pos);
    HeardMoves(Oks(x.acksRead), x.master.got, x.toMaster, k);
    if g + k == x.master.stop {
      ReplyLength(c, got);
      BoundStep(c, x.waits);
      BoundStep(c, x.waits + 1);
      FirstBound(c);
      if g + k == |f| {
        ReplyEnds(c, x.waits, Oks(x.acksRead));
        assert f[..|f|] == f;
      }
    }
  }

  lemma MovesOver(f: seq<byte>, g: nat, k: nat, pos: nat)
    requires g + k <= pos <= |f|
    ensures f[..g] + f[g..pos][..k] == f[..g + k] && f[g..pos][k..] == f[g + k..pos]
  {
  }

  lemma HeardMoves(a: seq<byte>, b: seq<byte>, c: seq<byte>, k: nat)
    requires k <= |c|
    ensures a + b + c == a + (b + c[..k]) + c[k..]
  {
  }

  lemma ReplyEnds(c: Call, waits: nat, oks: seq<byte>)
    requires Good(c) && Bound(c, waits) < |Reply(c)| == Bound(c, waits + 1)
    ensures c.m > 9 && waits == CeilDiv(|Reply(c)| - 9, c.m - 9) - 1
    ensures oks + Reply(c)[..|Reply(c)|] + Reply(c)[|Reply(c)|..|Reply(c)|] == oks + Reply(c)
  {
    hide Good, Reply;
    WidthPositive(c);
    LastStop(|Reply(c)|, c.m - 9, waits);
  }

  lemma SlaveKeeps(c: Call, x: System, y: System, k: nat)
    requires Inv(c, x) && SlaveReads(c, x, y, k)
    ensures Inv(c, y)
  {
    hide Good, Replying, Reply, Stop, Receive, Chunks, Part, Bound, Oks, CeilDiv;
    if x.master.AwaitAck? {
      SlaveTakesRequest(c, x, y, k);
    } else {
      SlaveTakesAck(c, x, y, k);
    }
  }

  lemma SlaveTakesRequest(c: Call, x: System, y: System, k: nat)
    requires Inv(c, x) && SlaveReads(c, x, y, k) && x.master.AwaitAck?
    ensures Inv(c, y)
  {
    hide Good, Replying, Reply, Stop, Receive, Chunks, Bound, CeilDiv, Oks;
    SizesPositive(c);
    var r, sent, prev := |x.slave.buf|, x.master.sent, Chunks(c, x.acksRead);
    PrevPositive(c, x.acksRead);
    Cut(c.frame, r, k, sent);
    IdlePart(c, r, prev);
    NothingAhead(Oks(x.acksRead), x.toMaster, Receive(c.clock, x.slave, Data(x.toSlave[..k])).out);
    if r + k < |c.frame| {
      SlavePart(c, r, prev, k);
    } else {
      assert c.frame[r..r + k] == c.frame[r..];
      SlaveWhole(c, r, prev);
    }
  }

  lemma PrevPositive(c: Call, n: nat)
    ensures Chunks(c, n) > 0 ==> Chunks(c, n) >= c.s
  {
    if n > 0 { MulMono(1, n, c.s); }
  }

  lemma Cut(f: seq<byte>, r: nat, k: nat, sent: nat)
    requires r + k <= sent <= |f|
    ensures f[r..sent][..k] == f[r..r + k] && f[r..sent][k..] == f[r + k..sent]
  {
  }

  lemma NothingAhead(a: seq<byte>, queue: seq<byte>, more: seq<byte>)
    requires queue == []
    ensures queue + more == more && a + queue + more == a + more
  {
  }

  lemma SlaveTakesAck(c: Call, x: System, y: System, k: nat)
    requires Inv(c, x) && SlaveReads(c, x, y, k) && x.master.Reading?
    ensures Inv(c, y)
  {
    hide Good, Replying, Reply, Stop, Receive, Chunks, Bound, CeilDiv, Oks, Part;
    assert k == 1 && x.toSlave[..1] == [ACK_OK];
    var i := x.waits + 1;
    SlaveNextPart(c, i);
    BoundStep(c, i);
    WaitingPart(c, i);
    NothingAhead(Oks(x.acksRead) + x.master.got, x.toMaster, Receive(c.clock, x.slave, Data(x.toSlave[..k])).out);
  }

  lemma IdlePart(c: Call, r: nat, prev: nat)
    requires Good(c) && r <= |c.frame|
    ensures Part(c, r, prev).mode.Idle?
  {
  }

  lemma WaitingPart(c: Call, i: nat)
    requires Good(c) && Bound(c, i) < |Reply(c)|
    ensures Replying(c, Bound(c, i)).mode.Waiting?
  {
  }

  // ---------------------------------------------------------------- every step brings the end closer

  lemma InvNext(c: Call, x: System, st: Step, y: System)
    requires Inv(c, x) && Next(c, x, st, y)
    ensures Inv(c, y)
  {
    hide Inv, MasterSends, MasterHears, MasterReads, SlaveReads;
    match st
    case MSend => SendKeeps(c, x, y);
    case MHear => HearKeeps(c, x, y);
    case MRead(k) => ReadKeeps(c, x, y, k);
    case SRead(k) => SlaveKeeps(c, x, y, k);
  }

  function Recvd(c: Call, sl: Slave): nat
  {
    if sl.calls != c.slave.calls then |c.frame| else |sl.buf|
  }

  function Replied(c: Call, sl: Slave): nat
    requires Good(c)
  {
    if sl.calls == c.slave.calls then 0 else if sl.mode.Waiting? then sl.mode.pos else |Reply(c)|
  }

  function Got(c: Call, m: Master): nat
    requires Good(c)
  {
    match m
    case Reading(got, _) => |got|
    case Done(_) => |Reply(c)|
    case _ => 0
  }

  function Sent(c: Call, m: Master): int
  {
    match m
    case Sending(sent) => 2 * sent
    case AwaitAck(sent) => 2 * sent - 1
    case _ => 2 * |c.frame|
  }

  /** What is left of a call: bytes and acknowledgements still to be moved. */
  function Rank(c: Call, x: System): int
    requires Good(c)
  {
    (2 * |c.frame| - Sent(c, x.master)) + (|c.frame| - Recvd(c, x.slave))
    + (|Reply(c)| - Replied(c, x.slave)) + (|Reply(c)| - Got(c, x.master))
  }

  lemma PartIsUnhandled(c: Call, r: nat, acked: nat)
    requires Good(c) && r <= |c.frame|
    ensures Part(c, r, acked).buf == c.frame[..r]
    ensures Recvd(c, Part(c, r, acked)) == r && Replied(c, Part(c, r, acked)) == 0
  {
  }

  lemma ReplyingIsHandled(c: Call, i: nat)
    requires Good(c)
    ensures var sl := Replying(c, Bound(c, i)); Recvd(c, sl) == |c.frame| && Replied(c, sl) == Bound(c, i)
  {
    hide XorSum, Frame, Stop;
  }

  /** How far the slave has come, by state of the master. */
  lemma Progress(c: Call, x: System)
    requires Inv(c, x)
    ensures 0 <= Rank(c, x)
    ensures x.master.Sending? || x.master.AwaitAck? ==>
              if x.slave.calls == c.slave.calls then
                Recvd(c, x.slave) == |x.slave.buf| < |c.frame| && Replied(c, x.slave) == 0
                && |x.toSlave| == (if x.master.Sending? then 0 else x.master.sent - |x.slave.buf|)
              else Recvd(c, x.slave) == |c.frame| && Replied(c, x.slave) == Bound(c, 1) && x.toSlave == []
    ensures x.master.Reading? ==>
              Recvd(c, x.slave) == |c.frame| && Replied(c, x.slave) == Bound(c, x.waits + 1)
    ensures x.master.Done? ==> Recvd(c, x.slave) == |c.frame| && Replied(c, x.slave) == |Reply(c)|
  {
    hide Good, Reply, Stop, Receive, Chunks, Oks, CeilDiv, Bound, Part, Replying;
    FirstBound(c);
    SizesPositive(c);
    match x.master {
      case Sending(sent) => PartIsUnhandled(c, sent, sent);
      case AwaitAck(sent) =>
        ReplyingIsHandled(c, 1);
        ReplyingDiffers(c, 1);
        if x.toSlave != [] { PartIsUnhandled(c, |x.slave.buf|, Chunks(c, x.acksRead)); }
        if x.toMaster == [ACK_OK] { PartIsUnhandled(c, sent, sent); }
      case Reading(_, _) => ReplyingIsHandled(c, x.waits + 1);
      case _ => DoneIsHandled(c);
    }
  }

  lemma ReplyingDiffers(c: Call, i: nat)
    requires Good(c)
    ensures Replying(c, Bound(c, i)).calls != c.slave.calls
  {
    hide XorSum, Frame, Stop;
  }

  lemma DoneIsHandled(c: Call)
    requires Good(c)
    ensures var sl := Replying(c, |Reply(c)|); Recvd(c, sl) == |c.frame| && Replied(c, sl) == |Reply(c)|
  {
    hide XorSum, Frame;
  }

  /** Every step brings the call closer to its end. */
  lemma RankFalls(c: Call, x: System, st: Step, y: System)
    requires Inv(c, x) && Next(c, x, st, y)
    ensures 0 <= Rank(c, y) < Rank(c, x)
  {
    InvNext(c, x, st, y);
    if st.SRead? { SlaveAdvances(c, x, y, st.k); } else { MasterAdvances(c, x, st, y); }
  }

  lemma MasterAdvances(c: Call, x: System, st: Step, y: System)
    requires Inv(c, x) && Inv(c, y) && Next(c, x, st, y) && !st.SRead?
    ensures 0 <= Rank(c, y) < Rank(c, x)
  {
    hide Good, Replying, Reply, Part, Stop, Receive, Chunks, Oks, CeilDiv, Bound, Recvd, Replied;
    Progress(c, y);
    SizesPositive(c);
  }

  lemma SlaveAdvances(c: Call, x: System, y: System, k: nat)
    requires Inv(c, x) && Inv(c, y) && SlaveReads(c, x, y, k)
    ensures 0 <= Rank(c, y) < Rank(c, x)
  {
    hide Good, Replying, Reply, Part, Stop, Receive, Chunks, Oks, CeilDiv, Bound, Recvd, Replied;
    Progress(c, x);
    Progress(c, y);
    if x.master.Reading? {
      WaitingPart(c, x.waits + 1);
      BoundStep(c, x.waits + 1);
    } else {
      PartCalls(c, |x.slave.buf|, Chunks(c, x.acksRead));
    }
  }

  lemma PartCalls(c: Call, r: nat, acked: nat)
    requires r <= |c.frame|
    ensures Part(c, r, acked).calls == c.slave.calls
  {
  }

  // ---------------------------------------------------------------- the results

  /** In every state that keeps the invariant the call is over or somebody can move. */
  lemma SomebodyMoves(c: Call, x: System) returns (st: Step, y: System)
    requires Inv(c, x) && !x.master.Done?
    ensures Next(c, x, st, y)
  {
    hide Good, Replying, Reply, Part, Stop, Receive, Chunks, Oks, CeilDiv, Bound;
    SizesPositive(c);
    st, y := MSend, x;
    match x.master {
      case Sending(sent) =>
        var end := Min(sent + c.s, |c.frame|);
        y := x.(master := AwaitAck(end), toSlave := x.toSlave + c.frame[sent..end]);
      case AwaitAck(_) =>
        if x.toMaster != [] { st, y := Hearing(c, x); } else { st, y := SlaveMoves(c, x); }
      case Reading(got, stop) =>
        if x.toMaster != [] { st, y := Reading1(c, x); } else { st, y := SlaveMoves(c, x); }
    }
  }

  lemma Hearing(c: Call, x: System) returns (st: Step, y: System)
    requires x.master.AwaitAck? && x.toMaster != []
    ensures Next(c, x, st, y)
  {
    var rest := x.(toMaster := x.toMaster[1..]);
    st := MHear;
    y := if x.toMaster[0] != ACK_OK then rest.(master := Failed)
         else if x.master.sent < |c.frame| then rest.(master := Sending(x.master.sent), acksRead := x.acksRead + 1)
         else rest.(master := Reading([], 9), acksRead := x.acksRead + 1);
  }

  lemma SlaveMoves(c: Call, x: System) returns (st: Step, y: System)
    requires Inv(c, x) && x.toSlave != []
    ensures Next(c, x, st, y)
  {
    hide Receive, Reply, Bound;
    SlaveSane(c, x);
    st := SRead(1);
    var e := Data(x.toSlave[..1]);
    var r := Receive(c.clock, x.slave, e);
    y := x.(toSlave := x.toSlave[1..], slave := r.slave, toMaster := x.toMaster + r.out,
            waits := x.waits + if IsAck(x.slave, e) then 1 else 0, heard := x.heard + r.out);
  }

  lemma SlaveSane(c: Call, x: System)
    requires Inv(c, x)
    ensures Sane(x.slave)
  {
    hide XorSum, Frame, Stop, Oks, Chunks;
    FirstBound(c);
  }

  /** A byte of the reply is there: the master reads it. */
  lemma Reading1(c: Call, x: System) returns (st: Step, y: System)
    requires Inv(c, x) && x.master.Reading? && x.toMaster != []
    ensures Next(c, x, st, y)
  {
    hide Good, Reply, Replying, Oks, Stop;
    SizesPositive(c);
    st := MRead(1);
    var got := x.master.got + x.toMaster[..1];
    var rest := x.(toMaster := x.toMaster[1..]);
    if |got| < x.master.stop {
      y := rest.(master := Reading(got, x.master.stop));
    } else {
      AtLeastNine(c, x);
      var total := 9 + Get16(got, 4);
      if |got| >= total {
        y := rest.(master := Done(got));
      } else {
        var next := rest.(master := Reading(got, Min(total, |got| + c.m - 9)));
        y := if |got| == 9 then next else next.(toSlave := x.toSlave + [ACK_OK], acksSent := x.acksSent + 1);
      }
    }
  }

  lemma AtLeastNine(c: Call, x: System)
    requires Inv(c, x) && x.master.Reading?
    ensures x.master.stop >= 9
  {
    hide Good, Reply, Replying, Oks, Stop;
  }

  /** A run: each state follows from the one before by the step named. */
  predicate IsRunOf(c: Call, xs: seq<System>, steps: seq<Step>)
  {
    && |xs| == |steps| + 1 && xs[0] == Init(c)
    && forall i :: 0 <= i < |steps| ==> Next(c, xs[i], steps[i], xs[i + 1])
  }

  /** Every state of every run keeps the invariant, and the run is never longer than there is work to do. */
  lemma {:induction false} RunKeeps(c: Call, xs: seq<System>, steps: seq<Step>)
    requires Good(c) && IsRunOf(c, xs, steps)
    ensures Inv(c, xs[|steps|]) && 0 <= Rank(c, xs[|steps|]) <= Rank(c, Init(c)) - |steps|
    decreases |steps|
  {
    hide Good, Inv, Next, Rank;
    if steps == [] {
      InitInv(c);
      Progress(c, Init(c));
    } else {
      var n := |steps| - 1;
      assert IsRunOf(c, xs[..n + 1], steps[..n]);
      RunKeeps(c, xs[..n + 1], steps[..n]);
      assert Next(c, xs[n], steps[n], xs[n + 1]);
      InvNext(c, xs[n], steps[n], xs[n + 1]);
      RankFalls(c, xs[n], steps[n], xs[n + 1]);
    }
  }

  /**
   * A call, however its bytes are cut up on the way. No run gets stuck before the reply is complete, and none
   * is longer than twice the request and reply together allow. When it is complete the master has read one ACK
   * for each of the ceil(L / S) chunks and one reply with the request's id and a correct checksum, nothing
   * else was sent, and it has sent the ceil((L' - 9) / (M - 9)) - 1 ACKs that the slave waited for.
   */
  lemma CallCompletes(c: Call, xs: seq<System>, steps: seq<Step>)
    requires Good(c) && IsRunOf(c, xs, steps)
    ensures |steps| <= 3 * |c.frame| + 2 * |Reply(c)|
    ensures var x := xs[|steps|];
            && (!x.master.Done? ==> exists st, y :: Next(c, x, st, y))
            && (x.master.Done? ==>
                  && x.master.reply == Reply(c) && IdOf(Reply(c)) == IdOf(c.frame) && XorSum(Reply(c)) == 0
                  && x.heard == Oks(CeilDiv(|c.frame|, c.s)) + Reply(c) && x.acksRead == CeilDiv(|c.frame|, c.s)
                  && c.m > 9 && x.acksSent == x.waits == CeilDiv(|Reply(c)| - 9, c.m - 9) - 1
                  && x.toSlave == [] && x.toMaster == [])
  {
    RunKeeps(c, xs, steps);
    var x := xs[|steps|];
    InitialRank(c);
    WidthPositive(c);
    ReplyFields(c);
    hide Good, Next, Rank, Reply, Replying, ReplyUnderWay, ChunkUnderWay;
    if !x.master.Done? {
      var st, y := SomebodyMoves(c, x);
    }
  }

  lemma InitialRank(c: Call)
    requires Good(c)
    ensures Rank(c, Init(c)) == 3 * |c.frame| + 2 * |Reply(c)|
  {
    hide XorSum, Reply;
  }

  lemma ReplyFields(c: Call)
    requires Good(c)
    ensures IdOf(Reply(c)) == IdOf(c.frame) && XorSum(Reply(c)) == 0
  {
    hide XorSum, IdOf;
    FrameFields(IdOf(c.frame), Answered(c).payload);
  }

  /** After a complete call the slave can take the next one. */
  lemma ReadyAgain(c: Call, x: System, frame: seq<byte>)
    requires Inv(c, x) && x.master.Done? && x.slave.s >= 8
    requires IsFrame(frame) && XorSum(frame) == 0 && (x.slave.started || frame[0] != START_BYTE)
    ensures Sane(x.slave)
    ensures Good(Call(c.clock, frame, x.slave, x.slave.s,
                      ReplyTo(x.slave.(calls := x.slave.calls + 1), IdOf(frame), frame[8..|frame| - 1],
                              c.clock).slave.m))
  {
    hide Inv, XorSum, IdOf, Frame, IsFrame, OutLength, ReplyTo;
    SlaveSane(c, x);
    DoneSlave(c, x);
  }

  lemma DoneSlave(c: Call, x: System)
    requires Inv(c, x) && x.master.Done?
    ensures x.slave.mode.Idle? && x.slave.buf == [] && x.slave.acked == 0
  {
    hide XorSum, IdOf, Frame, IsFrame, OutLength, ReplyTo, CeilDiv;
  }

  /**
   * With chunks smaller than a header, which the size call accepts, a call gets stuck: the slave acknowledges
   * nothing before it has 8 bytes, and the master sends no more before it has an acknowledgement.
   */
  lemma SmallChunksStick(c: Call) returns (xs: seq<System>, steps: seq<Step>)
    requires Asked(c) && c.s < 8
    ensures IsRunOf(c, xs, steps) && !xs[|steps|].master.Done?
    ensures forall st, y :: !Next(c, xs[|steps|], st, y)
  {
    hide XorSum, IdOf, ReplyTo, Announced, Handle;
    var x := Init(c).(master := AwaitAck(c.s), toSlave := c.frame[..c.s]);
    var y := Init(c).(master := AwaitAck(c.s), slave := Part(c, c.s, 0));
    var e := Data(x.toSlave[..c.s]);
    assert Init(c).toSlave + c.frame[0..c.s] == x.toSlave && x.toSlave[c.s..] == [];
    assert c.slave.buf + e.bytes == c.frame[..c.s] && e.bytes[0] == c.frame[0];
    assert Receive(c.clock, c.slave, e) == Run(Part(c, c.s, 0), [], []);
    xs, steps := [Init(c), x, y], [MSend, SRead(c.s)];
    assert MasterSends(c, Init(c), x) && SlaveReads(c, x, y, c.s);
  }
}
