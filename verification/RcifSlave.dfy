/** The slave: what each read from its socket makes it do, as a step function and as the program runs it. */
module RcifSlave {
  import opened Bytes
  import opened Numbers
  import opened RcifFrames

  const SET_UART_BUF := 0x2303
  const GET_SLAVE_TIME := 0x102D
  const EPOCH_READY := 0x1026
  const SET_PAIR := 0x1031
  const GET_PAIR := 0x1032
  const SUBSYSTEM_VERSION := 0x103C
  const EPOCH_MS := 1000
  const VERSION_TEXT := "GPSMAP7x08 Teseo stand-in 1.0"

  /** Between calls, or in the middle of a reply with `pos` bytes of `frame` sent. */
  datatype Mode = Idle | Waiting(frame: seq<byte>, pos: nat)

  datatype Slave = Slave(buf: seq<byte>, acked: nat, started: bool, m: nat, s: nat, pair: (nat, nat),
                         calls: nat, lastEpoch: int, mode: Mode)

  /** When the slave was created and what its clock shows at each call, in milliseconds. */
  datatype Clock = Clock(t0: int, at: nat -> int)

  /** What one read returns: some bytes, or nothing before the timeout or the end of the connection. */
  datatype Event = Data(bytes: seq<byte>) | Silence

  /** The state reached, the bytes sent on the way, and the complete frames taken off the buffer. */
  datatype Run = Run(slave: Slave, out: seq<byte>, frames: seq<seq<byte>>)

  const FRESH := Slave([], 0, false, 0x40, 0x40, (0, 0), 0, 0, Idle)

  predicate Sane(sl: Slave)
  {
    && 9 < sl.m < MAX_FRAME && 0 < sl.s < MAX_FRAME
    && sl.pair.0 < 0x1_0000_0000 && sl.pair.1 < 0x1_0000_0000
    && (sl.mode.Waiting? ==> sl.mode.pos < |sl.mode.frame|)
  }

  function Append(r: Run, q: Run): Run { Run(q.slave, r.out + q.out, r.frames + q.frames) }

  // ---------------------------------------------------------------- replies

  function OutLength(id: nat): (n: nat)
    ensures 4 <= n <= 600
  {
    if id == 0x1018 || id == 0x1019 then 4 + 0x44
    else if id == 0x101D then 4 + 0x254
    else if id == 0x1022 || id == GET_PAIR then 4 + 8
    else if id == SUBSYSTEM_VERSION then 4 + 0x40
    else 4
  }

  function VersionBytes(): (b: seq<byte>)
    ensures |b| == 29
  {
    seq(29, i requires 0 <= i < 29 => (VERSION_TEXT[i] as int) % 256)
  }

  datatype Answer = Answer(slave: Slave, payload: seq<byte>)

  /** Return code 0 and zeroed out-data, but for the few calls that carry something. */
  function ReplyTo(sl: Slave, id: nat, payload: seq<byte>, clock: Clock): (a: Answer)
    requires Sane(sl)
    ensures Sane(a.slave) && a.slave.buf == sl.buf && a.slave.acked == sl.acked && a.slave.mode == sl.mode
    ensures a.slave.started == sl.started && a.slave.calls == sl.calls
    ensures |a.payload| == OutLength(id)
  {
    var now := clock.at(sl.calls);
    if id == SET_UART_BUF then
      var fits := |payload| >= 12 && 9 < Get32(payload, 4) < MAX_FRAME && 0 < Get32(payload, 8) < MAX_FRAME;
      Answer(if fits then sl.(m := Get32(payload, 4), s := Get32(payload, 8)) else sl, Zeros(4))
    else if id == GET_SLAVE_TIME then Answer(sl, Le32((now - clock.t0) % 0x1_0000_0000))
    else if id == SET_PAIR then
      Answer(if |payload| >= 12 then sl.(pair := (Get32(payload, 4), Get32(payload, 8))) else sl, Zeros(4))
    else if id == GET_PAIR then
      Answer(sl, Zeros(4) + Le16(sl.pair.0 % 0x1_0000) + Zeros(2) + [sl.pair.1 % 0x100] + Zeros(3))
    else if id == SUBSYSTEM_VERSION then Answer(sl, Zeros(4) + VersionBytes() + Zeros(0x40 - 29))
    else if id == EPOCH_READY && now - sl.lastEpoch >= EPOCH_MS then Answer(sl.(lastEpoch := now), Le32(1))
    else Answer(sl, Zeros(OutLength(id)))
  }

  /** The last pair set is the pair read back, cut to the width of its fields. */
  lemma PairRoundTrip(sl: Slave, payload: seq<byte>, ask: seq<byte>, clock: Clock)
    requires Sane(sl) && |payload| >= 12
    ensures var got := ReplyTo(ReplyTo(sl, SET_PAIR, payload, clock).slave, GET_PAIR, ask, clock).payload;
            |got| == 12 && Get16(got, 4) == Get32(payload, 4) % 0x1_0000 && got[8] == Get32(payload, 8) % 0x100
  {
    var a := Get32(payload, 4);
    var got := ReplyTo(ReplyTo(sl, SET_PAIR, payload, clock).slave, GET_PAIR, ask, clock).payload;
    assert got[4..6] == Le16(a % 0x1_0000);
    GetLe16(got, 4, a % 0x1_0000);
  }

  /** All bytes from `lo` up to `hi` are zero. */
  predicate Zero(b: seq<byte>, lo: nat, hi: nat)
    requires hi <= |b|
  {
    forall i :: lo <= i < hi ==> b[i] == 0
  }

  /** Answers are zero but for four calls, and as long as the calls of the same ids have room for out-data. */
  lemma ZeroReplies(sl: Slave, id: nat, payload: seq<byte>, clock: Clock)
    requires Sane(sl) && id != 0x102D && id != 0x1032 && id != 0x103C && id != 0x1026
    ensures var a := ReplyTo(sl, id, payload, clock);
            && Zero(a.payload, 0, |a.payload|)
            && |a.payload| == (if id == 0x1018 || id == 0x1019 then 72 else if id == 0x101D then 600
                               else if id == 0x1022 then 12 else 4)
            && (id != 0x2303 && id != 0x1031 ==> a.slave == sl)
  {
  }

  /**
   * The sizes of a call to 0x2303 are taken over exactly when both are ones the slave can work with, the pair of a
   * call to 0x1031 always.
   */
  lemma SizesTaken(sl: Slave, payload: seq<byte>, clock: Clock)
    requires Sane(sl) && |payload| >= 12
    ensures var m, s := Get32(payload, 4), Get32(payload, 8);
            && ReplyTo(sl, 0x2303, payload, clock).slave
               == (if 10 <= m <= 0x533 && 1 <= s <= 0x533 then sl.(m := m, s := s) else sl)
            && ReplyTo(sl, 0x1031, payload, clock).slave == sl.(pair := (m, s))
  {
  }

  /** The clock call returns the milliseconds since the slave was created, in 32 bits. */
  lemma TimeTold(sl: Slave, payload: seq<byte>, clock: Clock)
    requires Sane(sl)
    ensures var a := ReplyTo(sl, 0x102D, payload, clock);
            |a.payload| == 4 && Get32(a.payload, 0) == (clock.at(sl.calls) - clock.t0) % 0x1_0000_0000 && a.slave == sl
  {
    GetLe32(ReplyTo(sl, 0x102D, payload, clock).payload, 0, (clock.at(sl.calls) - clock.t0) % 0x1_0000_0000);
  }

  /**
   * Of two polls for an epoch, the first of which was granted, the second is granted exactly when a second has passed
   * between them; a refused poll changes nothing.
   */
  lemma EpochsApart(sl: Slave, p: seq<byte>, q: seq<byte>, calls: nat, clock: Clock)
    requires Sane(sl) && Get32(ReplyTo(sl, 0x1026, p, clock).payload, 0) != 0
    ensures var a := ReplyTo(sl, 0x1026, p, clock);
            var b := ReplyTo(a.slave.(calls := calls), 0x1026, q, clock);
            && |a.payload| == |b.payload| == 4 && Get32(a.payload, 0) == 1
            && Get32(b.payload, 0) == (if clock.at(calls) - clock.at(sl.calls) >= 1000 then 1 else 0)
            && (Get32(b.payload, 0) == 0 ==> b.slave == a.slave.(calls := calls))
  {
    GetLe32(Le32(1), 0, 1);
    GetLe32(Zeros(4), 0, 0);
  }

  /** The version call answers with the text of the stand-in, filled up with zeros. */
  lemma VersionTold(sl: Slave, payload: seq<byte>, clock: Clock)
    requires Sane(sl)
    ensures var a := ReplyTo(sl, 0x103C, payload, clock);
            && |a.payload| == 68 && Zero(a.payload, 0, 4) && Zero(a.payload, 33, 68) && a.slave == sl
            && forall i :: 0 <= i < 29 ==> a.payload[4 + i] as char == "GPSMAP7x08 Teseo stand-in 1.0"[i]
  {
  }

  // ---------------------------------------------------------------- one step

  /** ACKs for the chunks of an incomplete request, and how far they reach. */
  function AckedTo(acked: nat, s: nat, have: nat, total: nat): nat
    requires s > 0
    decreases have - acked
  {
    if acked + s <= have && acked + s < total then AckedTo(acked + s, s, have, total) else acked
  }

  function Acks(acked: nat, s: nat, have: nat, total: nat): (a: seq<byte>)
    requires s > 0
    decreases have - acked
  {
    if acked + s <= have && acked + s < total then [ACK_OK] + Acks(acked + s, s, have, total) else []
  }

  /** The first part of a reply: all the master can take without acknowledging. */
  function StartReply(sl: Slave, f: seq<byte>): (r: Run)
    requires Sane(sl) && sl.mode.Idle?
    ensures Sane(r.slave) && r.slave.buf == sl.buf
  {
    var first := Min(|f|, sl.m);
    Run(sl.(mode := if first < |f| then Waiting(f, first) else Idle), [ACK_OK] + f[..first], [])
  }

  /** A complete frame, already off the buffer. */
  function Handle(clock: Clock, sl: Slave, frame: seq<byte>): (r: Run)
    requires Sane(sl) && sl.mode.Idle? && IsFrame(frame)
    ensures Sane(r.slave) && r.slave.buf == sl.buf && r.slave.acked == sl.acked && r.slave.started == sl.started
    ensures r.frames == [frame]
  {
    if XorSum(frame[..|frame| - 1]) != frame[|frame| - 1] then Run(sl, [ACK_BAD_CKSUM], [frame])
    else
      var a := ReplyTo(sl.(calls := sl.calls + 1), IdOf(frame), frame[8..|frame| - 1], clock);
      StartReply(a.slave, Frame(IdOf(frame), a.payload)).(frames := [frame])
  }

  /** Work through the buffer until it holds no complete frame or a reply has to wait for the master. */
  function Drain(clock: Clock, sl: Slave): (r: Run)
    requires Sane(sl) && sl.mode.Idle?
    ensures Sane(r.slave)
    decreases |sl.buf|
  {
    if sl.buf == [] then Run(sl, [], [])
    else if !sl.started && sl.buf[0] == START_BYTE then Drain(clock, sl.(buf := sl.buf[1..], started := true))
    else if |sl.buf| < 8 then Run(sl, [], [])
    else
      var n := Announced(sl.buf);
      if n == 0 then Drain(clock, sl.(buf := sl.buf[1..], acked := 0))
      else if |sl.buf| < n then
        Run(sl.(acked := AckedTo(sl.acked, sl.s, |sl.buf|, n)), Acks(sl.acked, sl.s, |sl.buf|, n), [])
      else
        FrameAtHead(sl.buf);
        var h := Handle(clock, sl.(buf := sl.buf[n..], acked := 0), sl.buf[..n]);
        if h.slave.mode.Waiting? then h else Append(h, Drain(clock, h.slave))
  }

  lemma FrameAtHead(b: seq<byte>)
    requires |b| >= 8 && 0 < Announced(b) <= |b|
    ensures IsFrame(b[..Announced(b)])
  {
    var n := Announced(b);
    assert b == b[..n] + b[n..];
    AnnouncedPrefix(b[..n], b[n..]);
  }

  /** The next part of a reply; after the last one the buffer is looked at again. */
  function NextChunk(clock: Clock, sl: Slave): (r: Run)
    requires Sane(sl) && sl.mode.Waiting?
    ensures Sane(r.slave)
  {
    var f, pos := sl.mode.frame, sl.mode.pos;
    var n := Min(|f| - pos, sl.m - 9);
    var sent := Run(sl.(mode := if pos + n < |f| then Waiting(f, pos + n) else Idle), f[pos..pos + n], []);
    if pos + n < |f| then sent else Append(sent, Drain(clock, sent.slave))
  }

  /** Does this read bring the master's acknowledgement? */
  predicate IsAck(sl: Slave, e: Event)
  {
    sl.mode.Waiting? && e.Data? && e.bytes != [] && e.bytes[0] == ACK_OK
  }

  /** The bytes of a read that go to the buffer: all but the acknowledgement a reply was waiting for. */
  function Kept(sl: Slave, e: Event): seq<byte>
  {
    if e.Silence? then [] else if IsAck(sl, e) then e.bytes[1..] else e.bytes
  }

  function Receive(clock: Clock, sl: Slave, e: Event): (r: Run)
    requires Sane(sl)
    ensures Sane(r.slave)
  {
    var sl' := sl.(buf := sl.buf + Kept(sl, e));
    if sl.mode.Idle? then (if e.Silence? then Run(sl, [], []) else Drain(clock, sl'))
    else if IsAck(sl, e) || e.Silence? || e.bytes == [] then NextChunk(clock, sl')
    else Run(sl', [], [])
  }

  /** Everything since the slave was created. */
  function RunAll(clock: Clock, evs: seq<Event>): (r: Run)
    ensures Sane(r.slave)
    decreases |evs|
  {
    if evs == [] then Run(FRESH, [], [])
    else
      var r := RunAll(clock, evs[..|evs| - 1]);
      Append(r, Receive(clock, r.slave, evs[|evs| - 1]))
  }

  /** The bytes that reached the buffer, in order. */
  function Stream(clock: Clock, evs: seq<Event>): seq<byte>
    decreases |evs|
  {
    if evs == [] then []
    else
      var before := evs[..|evs| - 1];
      Stream(clock, before) + Kept(RunAll(clock, before).slave, evs[|evs| - 1])
  }

  // ---------------------------------------------------------------- streaming

  /** Taking frames off the buffer leaves the rest of the parse to come. */
  lemma {:induction false} DrainParses(clock: Clock, sl: Slave)
    requires Sane(sl) && sl.mode.Idle?
    ensures var r := Drain(clock, sl);
            var q := Parse(r.slave.started, r.slave.buf);
            && Parse(sl.started, sl.buf) == Parsed(r.frames + q.frames, q.rest, q.started)
            && (r.slave.mode.Idle? ==> Settled(r.slave.started, r.slave.buf))
    decreases |sl.buf|
  {
    hide Announced, IdOf, XorSum, ReplyTo, StartReply, Handle;
    if sl.buf == [] {
    } else if !sl.started && sl.buf[0] == START_BYTE {
      DrainParses(clock, sl.(buf := sl.buf[1..], started := true));
    } else if |sl.buf| >= 8 {
      var n := Announced(sl.buf);
      if n == 0 {
        DrainParses(clock, sl.(buf := sl.buf[1..], acked := 0));
      } else if |sl.buf| >= n {
        FrameAtHead(sl.buf);
        var h := Handle(clock, sl.(buf := sl.buf[n..], acked := 0), sl.buf[..n]);
        if h.slave.mode.Idle? {
          DrainParses(clock, h.slave);
          var r := Drain(clock, h.slave);
          FramesAssoc(h.frames, r.frames, Parse(r.slave.started, r.slave.buf).frames);
        }
      }
    }
  }

  /** Frames taken so far, followed by the parse of the buffer, are the parse of all bytes received. */
  predicate Streaming(r: Run, stream: seq<byte>)
  {
    var q := Parse(r.slave.started, r.slave.buf);
    && Parse(false, stream) == Parsed(r.frames + q.frames, q.rest, q.started)
    && (r.slave.mode.Idle? ==> Settled(r.slave.started, r.slave.buf))
  }

  /** More bytes at the end of the buffer and of the stream. */
  lemma StreamingMore(r: Run, stream: seq<byte>, b: seq<byte>)
    requires Streaming(r, stream)
    ensures var q := Parse(r.slave.started, r.slave.buf + b);
            Parse(false, stream + b) == Parsed(r.frames + q.frames, q.rest, q.started)
  {
    hide Parse, Settled;
    ParseStreams(false, stream, b);
    ParseStreams(r.slave.started, r.slave.buf, b);
    var q := Parse(r.slave.started, r.slave.buf);
    FramesAssoc(r.frames, q.frames, Parse(q.started, q.rest + b).frames);
  }

  lemma StreamingDrain(r: Run, stream: seq<byte>, clock: Clock, sl: Slave)
    requires Sane(sl) && sl.mode.Idle?
    requires var q := Parse(sl.started, sl.buf);
             Parse(false, stream) == Parsed(r.frames + q.frames, q.rest, q.started)
    ensures Streaming(Append(r, Drain(clock, sl)), stream)
  {
    hide Parse, Settled, Drain;
    DrainParses(clock, sl);
    var d := Drain(clock, sl);
    FramesAssoc(r.frames, d.frames, Parse(d.slave.started, d.slave.buf).frames);
  }

  lemma StreamingStep(clock: Clock, r: Run, stream: seq<byte>, e: Event)
    requires Sane(r.slave) && Streaming(r, stream)
    ensures Streaming(Append(r, Receive(clock, r.slave, e)), stream + Kept(r.slave, e))
  {
    hide Parse, Settled, Drain;
    var kept := Kept(r.slave, e);
    var sl := r.slave.(buf := r.slave.buf + kept);
    StreamingMore(r, stream, kept);
    if r.slave.mode.Idle? {
      if e.Data? {
        StreamingDrain(r, stream + kept, clock, sl);
      } else {
        assert stream + kept == stream && r.out + [] == r.out && r.frames + [] == r.frames;
      }
    } else if IsAck(r.slave, e) || e.Silence? || e.bytes == [] {
      var n := Min(|sl.mode.frame| - sl.mode.pos, sl.m - 9);
      assert r.frames + [] == r.frames;
      if sl.mode.pos + n == |sl.mode.frame| {
        StreamingDrain(r, stream + kept, clock, sl.(mode := Idle));
        var d := Drain(clock, sl.(mode := Idle));
        assert [] + d.frames == d.frames;
      }
    } else {
      assert r.frames + [] == r.frames;
    }
  }

  /** At every moment of every run. */
  lemma {:induction false} RunStreams(clock: Clock, evs: seq<Event>)
    ensures Streaming(RunAll(clock, evs), Stream(clock, evs))
    decreases |evs|
  {
    hide Parse, Settled, Receive, Kept;
    if evs == [] {
      NothingStreams();
    } else {
      var before := evs[..|evs| - 1];
      RunStreams(clock, before);
      StreamingStep(clock, RunAll(clock, before), Stream(clock, before), evs[|evs| - 1]);
    }
  }

  lemma NothingStreams()
    ensures Streaming(Run(FRESH, [], []), [])
  {
  }

  /** Two runs that brought the same bytes, however cut, have handled the same frames and kept the same rest. */
  lemma CuttingMakesNoDifference(clock: Clock, evs: seq<Event>, evs': seq<Event>)
    requires Stream(clock, evs) == Stream(clock, evs')
    requires RunAll(clock, evs).slave.mode.Idle? && RunAll(clock, evs').slave.mode.Idle?
    ensures var r, r' := RunAll(clock, evs), RunAll(clock, evs');
            r.frames == r'.frames && r.slave.buf == r'.slave.buf && r.slave.started == r'.slave.started
  {
    hide Parse, Settled, RunAll, Stream;
    RunStreams(clock, evs);
    RunStreams(clock, evs');
    var r, r' := RunAll(clock, evs), RunAll(clock, evs');
    SettledParse(r.slave.started, r.slave.buf);
    SettledParse(r'.slave.started, r'.slave.buf);
    assert r.frames + [] == r.frames && r'.frames + [] == r'.frames;
  }

  /**
   * The very first request of a slave that has not seen the start byte is handled, however it is cut, exactly unless
   * its first byte can be taken for it.
   */
  lemma FirstRequestHandledExactly(clock: Clock, evs: seq<Event>, f: seq<byte>)
    requires IsFrame(f) && Stream(clock, evs) == f && RunAll(clock, evs).slave.mode.Idle?
    ensures f in RunAll(clock, evs).frames <==> f[0] != START_BYTE
  {
    hide Parse, Settled, RunAll, Stream, IsFrame;
    RunStreams(clock, evs);
    RecognisedExactly(false, f);
    var r := RunAll(clock, evs);
    SettledParse(r.slave.started, r.slave.buf);
    assert r.frames + [] == r.frames;
  }

  // ---------------------------------------------------------------- chunk acknowledgements

  /** A multiple of the chunk size, and positive only over the head of a frame that is possible so far. */
  predicate AckedOk(sl: Slave)
    requires Sane(sl)
  {
    && sl.acked % sl.s == 0 && sl.acked <= |sl.buf|
    && (sl.acked > 0 ==> sl.mode.Idle? && |sl.buf| >= 8 && (sl.started || sl.buf[0] != START_BYTE)
                         && sl.acked < Announced(sl.buf))
  }

  /** At rest exactly the complete chunks of the incomplete frame at the head are acknowledged. */
  predicate AckedAtRest(sl: Slave)
    requires Sane(sl)
  {
    sl.mode.Idle? ==> sl.acked == if |sl.buf| >= 8 then |sl.buf| - |sl.buf| % sl.s else 0
  }

  lemma {:induction false} AckLoop(acked: nat, s: nat, have: nat, total: nat)
    requires s > 0 && acked % s == 0 && acked <= have < total
    ensures AckedTo(acked, s, have, total) == have - have % s
    ensures |Acks(acked, s, have, total)| * s == have - have % s - acked
    ensures forall i :: 0 <= i < |Acks(acked, s, have, total)| ==> Acks(acked, s, have, total)[i] == ACK_OK
    decreases have - acked
  {
    if acked + s <= have {
      NextMultiple(acked, s);
      AckLoop(acked + s, s, have, total);
    } else {
      LastMultiple(acked, s, have);
    }
  }

  lemma NextMultiple(a: nat, s: nat)
    requires s > 0 && a % s == 0
    ensures (a + s) % s == 0
  {
    var q := a / s;
    assert a + s == (q + 1) * s;
    MultipleMod(q + 1, s, 0);
  }

  lemma LastMultiple(a: nat, s: nat, have: nat)
    requires s > 0 && a % s == 0 && a <= have < a + s
    ensures have - have % s == a
  {
    DivMod(a, s);
    RemainderOf(have, s, a / s, have - a);
  }

  lemma MultipleMod(q: nat, s: nat, r: nat)
    requires r < s
    ensures (q * s + r) / s == q && (q * s + r) % s == r
  {
    RemainderOf(q * s + r, s, q, r);
  }

  lemma {:induction false} DrainAcked(clock: Clock, sl: Slave)
    requires Sane(sl) && sl.mode.Idle? && AckedOk(sl)
    ensures AckedOk(Drain(clock, sl).slave) && AckedAtRest(Drain(clock, sl).slave)
    decreases |sl.buf|
  {
    hide Announced, IdOf, XorSum, ReplyTo, StartReply, Handle;
    if sl.buf == [] {
    } else if !sl.started && sl.buf[0] == START_BYTE {
      DrainAcked(clock, sl.(buf := sl.buf[1..], started := true));
    } else if |sl.buf| >= 8 {
      var n := Announced(sl.buf);
      if n == 0 {
        DrainAcked(clock, sl.(buf := sl.buf[1..], acked := 0));
      } else if |sl.buf| < n {
        AckLoop(sl.acked, sl.s, |sl.buf|, n);
        WholeChunks(|sl.buf|, sl.s);
      } else {
        FrameAtHead(sl.buf);
        var h := Handle(clock, sl.(buf := sl.buf[n..], acked := 0), sl.buf[..n]);
        if h.slave.mode.Idle? { DrainAcked(clock, h.slave); }
      }
    }
  }

  lemma WholeChunks(n: nat, s: nat)
    requires s > 0
    ensures (n - n % s) % s == 0 && 0 <= n - n % s <= n
  {
    DivMod(n, s);
    MultipleMod(n / s, s, 0);
  }

  lemma AckedMore(sl: Slave, b: seq<byte>)
    requires Sane(sl) && AckedOk(sl)
    ensures AckedOk(sl.(buf := sl.buf + b))
  {
    if |sl.buf| >= 8 { AnnouncedPrefix(sl.buf, b); }
  }

  /** At every moment of every run. */
  lemma {:induction false} RunAcked(clock: Clock, evs: seq<Event>)
    ensures AckedOk(RunAll(clock, evs).slave) && AckedAtRest(RunAll(clock, evs).slave)
    decreases |evs|
  {
    if evs != [] {
      hide Drain, Announced;
      var sl, e := RunAll(clock, evs[..|evs| - 1]).slave, evs[|evs| - 1];
      RunAcked(clock, evs[..|evs| - 1]);
      AckedMore(sl, Kept(sl, e));
      var sl' := sl.(buf := sl.buf + Kept(sl, e));
      if sl.mode.Idle? {
        if e.Data? { DrainAcked(clock, sl'); }
      } else {
        var n := Min(|sl.mode.frame| - sl.mode.pos, sl.m - 9);
        if (IsAck(sl, e) || e.Silence? || e.bytes == []) && sl.mode.pos + n == |sl.mode.frame| {
          DrainAcked(clock, sl'.(mode := Idle));
        }
      }
    }
  }

  /** Something is acknowledged only while an incomplete frame heads the buffer, and then every whole chunk of it. */
  lemma AckedOnlyWhileIncomplete(clock: Clock, evs: seq<Event>)
    requires RunAll(clock, evs).slave.acked > 0
    ensures var sl := RunAll(clock, evs).slave;
            && sl.mode.Idle? && |sl.buf| >= 8 && Announced(sl.buf) > |sl.buf|
            && sl.acked == |sl.buf| - |sl.buf| % sl.s
  {
    hide RunAll, Stream, Parse;
    RunAcked(clock, evs);
    RunStreams(clock, evs);
  }

  // ---------------------------------------------------------------- the first call

  /** Acknowledgement and reply to the first call. */
  const WELCOME: seq<byte> := [0xBB, 0x03, 0x23, 0x00, 0x00, 0x04, 0x00, 0x00, 0x00, 0x00, 0x00, 0x00, 0x00, 0x24]

  /** A new slave answers the first call so, and takes its sizes over; with a wrong last byte it answers 0xEF. */
  lemma HelloAnswered(clock: Clock, last: byte)
    ensures var r := Receive(clock, FRESH, Data(HELLO));
            r.out == WELCOME && r.frames == [HELLO] && r.slave == FRESH.(calls := 1)
    ensures last != 0x2C ==> Receive(clock, FRESH, Data(HELLO[..20] + [last])).out == [0xEF]
  {
    hide XorSum, Drain, Handle, Receive;
    HelloReceived(clock, HELLO);
    HelloHandled(clock);
    if last != 0x2C {
      HelloReceived(clock, HELLO[..20] + [last]);
      BadHandled(clock, HELLO[..20] + [last]);
    }
  }

  lemma HelloReceived(clock: Clock, f: seq<byte>)
    requires |f| == 21 && f[..20] == HELLO[..20]
    ensures IsFrame(f) && Receive(clock, FRESH, Data(f)) == Handle(clock, FRESH, f)
  {
    hide XorSum, Handle;
    assert forall i :: 0 <= i < 20 ==> f[i] == f[..20][i] == HELLO[i];
    assert Announced(f) == 21 && f[..21] == f && f[21..] == [];
    HandleEnds(clock, f);
    var h := Handle(clock, FRESH, f);
    assert Drain(clock, h.slave) == Run(h.slave, [], []);
    assert h.out + [] == h.out && h.frames + [] == h.frames;
    assert [] + f == f;
  }

  lemma HandleEnds(clock: Clock, f: seq<byte>)
    requires |f| == 21 && f[..20] == HELLO[..20] && IsFrame(f)
    ensures Handle(clock, FRESH, f).slave.mode.Idle?
  {
    hide XorSum;
    assert forall i :: 0 <= i < 20 ==> f[i] == f[..20][i] == HELLO[i];
    assert IdOf(f) == 0x2303;
  }

  lemma HelloHandled(clock: Clock)
    requires IsFrame(HELLO)
    ensures Handle(clock, FRESH, HELLO) == Run(FRESH.(calls := 1), WELCOME, [HELLO])
  {
    hide XorSum, Announced;
    HelloSum();
    var payload := HELLO[8..20];
    assert payload == [0, 0, 0, 0, 0x40, 0, 0, 0, 0x40, 0, 0, 0] && IdOf(HELLO) == 0x2303;
    var a := ReplyTo(FRESH.(calls := 1), 0x2303, payload, clock);
    assert Get32(payload, 4) == 0x40 && Get32(payload, 8) == 0x40;
    assert a.slave == FRESH.(calls := 1) && a.payload == Zeros(4);
    WelcomeFrame();
  }

  lemma WelcomeFrame()
    ensures [ACK_OK] + Frame(0x2303, Zeros(4)) == WELCOME
  {
    hide XorSum;
    WelcomeSum();
    assert Le32(0x2303) == [0x03, 0x23, 0, 0] && Le16(4) == [4, 0] && Le16(0) == [0, 0] && Zeros(4) == [0, 0, 0, 0];
    assert Le32(0x2303) + Le16(4) + Le16(0) + Zeros(4) == [0x03, 0x23, 0, 0, 4, 0, 0, 0, 0, 0, 0, 0];
  }

  lemma BadHandled(clock: Clock, f: seq<byte>)
    requires |f| == 21 && f[..20] == HELLO[..20] && f[20] != 0x2C && IsFrame(f)
    ensures Handle(clock, FRESH, f).out == [0xEF]
  {
    hide XorSum, Announced;
    HelloSum();
  }
}
