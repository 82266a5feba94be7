/** The slave as the program runs it: one object, nested loops, and reads in the middle of a reply. */
module Rcif {
  import opened Bytes
  import opened Numbers
  import opened RcifFrames
  import opened RcifSlave

  /** A handled frame, and the rest of the buffer unless its reply has to wait. */
  function Onward(clock: Clock, h: Run): Run
    requires Sane(h.slave)
  {
    if h.slave.mode.Waiting? then h else Append(h, Drain(clock, h.slave))
  }

  lemma AppendAssoc(a: Run, b: Run, c: Run)
    ensures Append(a, Append(b, c)) == Append(Append(a, b), c)
  {
    assert a.out + (b.out + c.out) == a.out + b.out + c.out;
    FramesAssoc(a.frames, b.frames, c.frames);
  }

  lemma AppendNothing(r: Run)
    ensures Append(r, Run(r.slave, [], [])) == r
  {
    assert r.out + [] == r.out && r.frames + [] == r.frames;
  }

  lemma RunMore(clock: Clock, evs: seq<Event>, e: Event)
    ensures RunAll(clock, evs + [e])
         == Append(RunAll(clock, evs), Receive(clock, RunAll(clock, evs).slave, e))
  {
    assert (evs + [e])[..|evs|] == evs;
  }

  lemma FeedBegins(clock: Clock, evs: seq<Event>, data: seq<byte>)
    requires RunAll(clock, evs).slave.mode.Idle?
    ensures var r := RunAll(clock, evs);
            RunAll(clock, evs + [Data(data)]) == Append(r, Drain(clock, r.slave.(buf := r.slave.buf + data)))
  {
    hide RunAll, Drain;
    RunMore(clock, evs, Data(data));
  }

  method BuildFrame(id: nat, payload: seq<byte>) returns (frame: seq<byte>)
    requires id < 0x1_0000_0000 && |payload| < 0x1_0000
    ensures frame == Frame(id, payload)
  {
    frame := Le32(id) + Le16(|payload|) + Le16(0) + payload;
    var sum := ComputeXorSum(frame);
    frame := frame + [sum];
  }

  class Rcif {
    var buf: seq<byte>
    var masterBuf: nat
    var slaveBuf: nat
    var acked: nat
    var calls: nat
    var started: bool
    var pair: (nat, nat)
    var lastEpoch: int
    const clock: Clock
    var inbox: seq<Event>      // what reads in the middle of a reply are going to return
    var out: seq<byte>         // everything sent
    ghost var seen: seq<Event> // everything read
    ghost var taken: seq<seq<byte>>

    ghost function State(mode: Mode): Slave
      reads this
    {
      Slave(buf, acked, started, masterBuf, slaveBuf, pair, calls, lastEpoch, mode)
    }

    ghost function Done(mode: Mode): Run
      reads this
    {
      Run(State(mode), out, taken)
    }

    /** What was read so far leads to the present state with `next` still to be done. */
    ghost predicate Before(next: Run)
      reads this
    {
      RunAll(clock, seen) == Append(Done(Idle), next)
    }

    /** The object is at rest: its fields and its output are those the reads so far determine. */
    ghost predicate Valid()
      reads this
    {
      Sane(State(Idle)) && RunAll(clock, seen) == Done(Idle)
    }

    constructor (c: Clock, deliveries: seq<Event>)
      ensures Valid() && clock == c && seen == [] && out == [] && taken == []
    {
      buf, masterBuf, slaveBuf, acked, calls, started := [], 0x40, 0x40, 0, 0, false;
      pair, lastEpoch, clock, inbox, out, seen, taken := (0, 0), 0, c, deliveries, [], [], [];
    }

    method Send(data: seq<byte>)
      modifies `out
      ensures out == old(out) + data
    {
      out := out + data;
    }

    /** A read in the middle of a reply; nothing more to come counts as a timeout. */
    method Recv() returns (e: Event)
      modifies `inbox, `seen
      ensures seen == old(seen) + [e] && |inbox| <= |old(inbox)|
      ensures e.Data? ==> |inbox| < |old(inbox)|
    {
      if inbox == [] {
        e := Silence;
      } else {
        e := inbox[0];
        inbox := inbox[1..];
      }
      seen := seen + [e];
    }

    /**
     * Take in new bytes and work through the buffer. Afterwards the object is at rest again, in the state and
     * with the output that the new bytes and the reads of any replies sent on the way lead to.
     */
    method Feed(data: seq<byte>)
      requires Valid()
      modifies this
      ensures Valid() && old(seen) + [Data(data)] <= seen
    {
      hide Drain, Announced, IdOf, RunAll, Handle, Receive, Acks, AckedTo, IsFrame, Append, Before;
      Arrive(data);
      while buf != []
        invariant Sane(State(Idle)) && Before(Drain(clock, State(Idle)))
        invariant old(seen) + [Data(data)] <= seen
        decreases |inbox|, |buf|
      {
        if !started && buf[0] == START_BYTE {
          DropStart();
          continue;
        }
        if |buf| < 8 {
          Rest();
          return;
        }
        var total := Announced(buf);
        if total == 0 {
          DropByte();
          continue;
        }
        if |buf| < total {
          AwaitRest(total);
          return;
        }
        var frame := CutFrame(total);
        HandleFrame(frame);
      }
      Rest();
    }

    /** The new bytes join the buffer. */
    method Arrive(data: seq<byte>)
      requires Valid()
      modifies `buf, `seen
      ensures Sane(State(Idle)) && Before(Drain(clock, State(Idle))) && seen == old(seen) + [Data(data)]
    {
      hide Drain, RunAll, Receive;
      FeedBegins(clock, seen, data);
      seen := seen + [Data(data)];
      buf := buf + data;
    }

    /** Nothing, or not yet a header: the object is at rest. */
    method Rest()
      requires Sane(State(Idle)) && Before(Drain(clock, State(Idle)))
      requires buf == [] || (|buf| < 8 && (started || buf[0] != START_BYTE))
      ensures Valid()
    {
      hide Drain, RunAll, Announced, Acks, AckedTo, Handle, IsFrame;
      DrainUnfolds(clock, State(Idle));
      AppendNothing(Done(Idle));
    }

    method DropStart()
      requires Sane(State(Idle)) && Before(Drain(clock, State(Idle))) && buf != [] && !started && buf[0] == START_BYTE
      modifies `buf, `started
      ensures Sane(State(Idle)) && Before(Drain(clock, State(Idle))) && |buf| < old(|buf|)
    {
      hide Drain, RunAll, Announced, Acks, AckedTo, Handle, IsFrame;
      DrainUnfolds(clock, State(Idle));
      buf := buf[1..];
      started := true;
    }

    /** No frame can start like this: one byte is dropped. */
    method DropByte()
      requires Sane(State(Idle)) && Before(Drain(clock, State(Idle)))
      requires |buf| >= 8 && (started || buf[0] != START_BYTE) && Announced(buf) == 0
      modifies `buf, `acked
      ensures Sane(State(Idle)) && Before(Drain(clock, State(Idle))) && |buf| < old(|buf|)
    {
      hide Drain, RunAll, Announced, Acks, AckedTo, Handle, IsFrame;
      DrainUnfolds(clock, State(Idle));
      buf := buf[1..];
      acked := 0;
    }

    /** The frame is not all there: its chunks are acknowledged, and the object is at rest. */
    method AwaitRest(total: nat)
      requires Sane(State(Idle)) && Before(Drain(clock, State(Idle)))
      requires |buf| >= 8 && (started || buf[0] != START_BYTE) && |buf| < Announced(buf) == total
      modifies `acked, `out
      ensures Valid()
    {
      hide Drain, RunAll, Announced, Acks, AckedTo, Handle, IsFrame;
      DrainUnfolds(clock, State(Idle));
      ghost var was := taken;
      AckChunks(total);
      assert was + [] == taken;
    }

    method CutFrame(total: nat) returns (frame: seq<byte>)
      requires Sane(State(Idle)) && Before(Drain(clock, State(Idle)))
      requires |buf| >= 8 && (started || buf[0] != START_BYTE) && 0 < Announced(buf) == total <= |buf|
      modifies `buf, `acked
      ensures IsFrame(frame) && Sane(State(Idle)) && |buf| < old(|buf|)
      ensures Before(Onward(clock, Handle(clock, State(Idle), frame)))
    {
      hide Drain, RunAll, Announced, Acks, AckedTo, Handle, IsFrame;
      DrainUnfolds(clock, State(Idle));
      frame := buf[..total];
      FrameAtHead(buf);
      buf := buf[total..];
      acked := 0;
    }

    /** One ACK for every further whole chunk of the incomplete request at the head. */
    method AckChunks(total: nat)
      requires slaveBuf > 0
      modifies `acked, `out
      ensures acked == AckedTo(old(acked), slaveBuf, |buf|, total)
      ensures out == old(out) + Acks(old(acked), slaveBuf, |buf|, total)
    {
      var have := |buf|;
      while acked + slaveBuf <= have && acked + slaveBuf < total
        invariant AckedTo(acked, slaveBuf, have, total) == AckedTo(old(acked), slaveBuf, have, total)
        invariant out + Acks(acked, slaveBuf, have, total) == old(out) + Acks(old(acked), slaveBuf, have, total)
        decreases have - acked
      {
        assert out + ([ACK_OK] + Acks(acked + slaveBuf, slaveBuf, have, total))
            == out + [ACK_OK] + Acks(acked + slaveBuf, slaveBuf, have, total);
        Send([ACK_OK]);
        acked := acked + slaveBuf;
      }
    }

    method HandleFrame(frame: seq<byte>)
      requires IsFrame(frame) && Sane(State(Idle))
      requires Before(Onward(clock, Handle(clock, State(Idle), frame)))
      modifies this
      ensures Sane(State(Idle)) && Before(Drain(clock, State(Idle)))
      ensures old(seen) <= seen && |inbox| <= old(|inbox|) && (|inbox| == old(|inbox|) ==> |buf| == old(|buf|))
    {
      hide Drain, Announced, IdOf, RunAll, Handle, Frame, FirstPart, Before;
      var sum := ComputeXorSum(frame[..|frame| - 1]);
      if sum != frame[|frame| - 1] {
        Refuse(frame);
        return;
      }
      var reply := Accept(frame);
      SendFrame(IdOf(frame), reply);
    }

    method Refuse(frame: seq<byte>)
      requires IsFrame(frame) && Sane(State(Idle)) && XorSum(frame[..|frame| - 1]) != frame[|frame| - 1]
      requires Before(Onward(clock, Handle(clock, State(Idle), frame)))
      modifies `out, `taken
      ensures Sane(State(Idle)) && Before(Drain(clock, State(Idle)))
    {
      hide Drain, Announced, IdOf, RunAll, Handle;
      HandleIs(clock, State(Idle), frame);
      ghost var was, sl := Done(Idle), State(Idle);
      taken := taken + [frame];
      Send([ACK_BAD_CKSUM]);
      AppendAssoc(was, Run(sl, [ACK_BAD_CKSUM], [frame]), Drain(clock, sl));
    }

    /** The request is acknowledged and carried out; its reply is still to be sent. */
    method Accept(frame: seq<byte>) returns (reply: seq<byte>)
      requires IsFrame(frame) && Sane(State(Idle)) && XorSum(frame[..|frame| - 1]) == frame[|frame| - 1]
      requires Before(Onward(clock, Handle(clock, State(Idle), frame)))
      modifies `out, `taken, `calls, `masterBuf, `slaveBuf, `pair, `lastEpoch
      ensures Sane(State(Idle)) && |reply| < 0x1_0000
      ensures Before(Onward(clock, FirstPart(State(Idle), Frame(IdOf(frame), reply))))
    {
      hide Drain, Announced, IdOf, RunAll, ReplyTo, OutLength, Handle, StartReply, Frame, FirstPart;
      HandleIs(clock, State(Idle), frame);
      ghost var was := Done(Idle);
      taken := taken + [frame];
      calls := calls + 1;
      Send([ACK_OK]);
      reply := MakeReply(IdOf(frame), frame[8..|frame| - 1]);
      BeginsReply(clock, was, State(Idle), Frame(IdOf(frame), reply), frame);
    }

    /** The answer to one call; the sizes, the pair and the epoch are remembered. */
    method MakeReply(id: nat, payload: seq<byte>) returns (reply: seq<byte>)
      requires Sane(State(Idle))
      modifies `masterBuf, `slaveBuf, `pair, `lastEpoch
      ensures ReplyTo(old(State(Idle)), id, payload, clock) == Answer(State(Idle), reply)
    {
      reply := Zeros(OutLength(id));
      var now := clock.at(calls);
      if id == SET_UART_BUF && |payload| >= 12 {
        var m, s := Get32(payload, 4), Get32(payload, 8);
        if 9 < m < MAX_FRAME && 0 < s < MAX_FRAME {
          masterBuf, slaveBuf := m, s;
        }
      } else if id == GET_SLAVE_TIME {
        reply := Le32((now - clock.t0) % 0x1_0000_0000);
      } else if id == SET_PAIR && |payload| >= 12 {
        pair := (Get32(payload, 4), Get32(payload, 8));
      } else if id == GET_PAIR {
        reply := Zeros(4) + Le16(pair.0 % 0x1_0000) + Zeros(2) + [pair.1 % 0x100] + Zeros(3);
      } else if id == SUBSYSTEM_VERSION {
        reply := Zeros(4) + VersionBytes() + Zeros(0x40 - 29);
      } else if id == EPOCH_READY {
        if now - lastEpoch >= EPOCH_MS {
          lastEpoch := now;
          reply := Le32(1);
        }
      }
    }

    /** A reply in parts: as much as the master takes at once, then a part for every acknowledgement or timeout. */
    method SendFrame(id: nat, payload: seq<byte>)
      requires id < 0x1_0000_0000 && |payload| < 0x1_0000 && Sane(State(Idle))
      requires Before(Onward(clock, FirstPart(State(Idle), Frame(id, payload))))
      modifies `out, `inbox, `seen, `buf
      ensures Sane(State(Idle)) && Before(Drain(clock, State(Idle)))
      ensures old(seen) <= seen && |inbox| <= old(|inbox|) && (|inbox| == old(|inbox|) ==> |buf| == old(|buf|))
    {
      hide Drain, RunAll, Frame, Receive;
      var frame := BuildFrame(id, payload);
      var first := Min(|frame|, masterBuf);
      ghost var was := Done(Idle);
      Send(frame[..first]);
      var pos := first;
      if pos < |frame| {
        assert was.frames + [] == taken;
      } else {
        AppendAssoc(was, Run(State(Idle), frame[..first], []), Drain(clock, State(Idle)));
        assert was.frames + [] == taken;
      }
      while pos < |frame|
        invariant first <= pos <= |frame| && Sane(State(Idle))
        invariant pos < |frame| ==> RunAll(clock, seen) == Done(Waiting(frame, pos))
        invariant pos == |frame| ==> Before(Drain(clock, State(Idle)))
        invariant old(seen) <= seen && |inbox| <= old(|inbox|)
        invariant |inbox| == old(|inbox|) ==> |buf| == old(|buf|)
      {
        var acknowledged := WaitMasterAck(frame, pos);
        was := Done(Idle);
        var n := Min(|frame| - pos, masterBuf - 9);
        Send(frame[pos..pos + n]);
        AppendAssoc(was, Run(State(Idle), frame[pos..pos + n], []), Drain(clock, State(Idle)));
        assert was.frames + [] == taken;
        pos := pos + n;
      }
    }

    /** Read until an acknowledgement or a timeout; whatever else arrives is kept for the parser. */
    method WaitMasterAck(ghost frame: seq<byte>, ghost pos: nat) returns (acknowledged: bool)
      requires Sane(State(Waiting(frame, pos))) && RunAll(clock, seen) == Done(Waiting(frame, pos))
      modifies `inbox, `seen, `buf
      ensures Sane(State(Waiting(frame, pos)))
      ensures Before(NextChunk(clock, State(Waiting(frame, pos))))
      ensures old(seen) <= seen && |inbox| <= old(|inbox|)
      ensures |inbox| == old(|inbox|) ==> |buf| == old(|buf|)
    {
      hide RunAll, NextChunk;
      while true
        invariant Sane(State(Waiting(frame, pos))) && RunAll(clock, seen) == Done(Waiting(frame, pos))
        invariant old(seen) <= seen && |inbox| <= old(|inbox|)
        invariant |inbox| == old(|inbox|) ==> |buf| == old(|buf|)
        decreases |inbox|
      {
        ghost var sl, before := State(Waiting(frame, pos)), seen;
        var e := Recv();
        RunMore(clock, before, e);
        if e.Silence? {
          assert sl.buf + [] == sl.buf;
          return false;
        }
        if e.bytes == [] {
          assert sl.buf + [] == sl.buf;
          return false;
        }
        if e.bytes[0] == ACK_OK {
          buf := buf + e.bytes[1..];
          return true;
        }
        buf := buf + e.bytes;
        AppendNothing(Run(State(Waiting(frame, pos)), out, taken));
      }
    }
  }

  lemma HandleIs(clock: Clock, sl: Slave, frame: seq<byte>)
    requires Sane(sl) && sl.mode.Idle? && IsFrame(frame)
    ensures if XorSum(frame[..|frame| - 1]) != frame[|frame| - 1] then
              Handle(clock, sl, frame) == Run(sl, [ACK_BAD_CKSUM], [frame])
            else
              var a := ReplyTo(sl.(calls := sl.calls + 1), IdOf(frame), frame[8..|frame| - 1], clock);
              Handle(clock, sl, frame) == StartReply(a.slave, Frame(IdOf(frame), a.payload)).(frames := [frame])
  {
  }

  /** A reply's first part without the acknowledgement ahead of it. */
  function FirstPart(sl: Slave, f: seq<byte>): (r: Run)
    requires Sane(sl) && sl.mode.Idle?
    ensures Sane(r.slave)
  {
    var first := Min(|f|, sl.m);
    Run(sl.(mode := if first < |f| then Waiting(f, first) else Idle), f[..first], [])
  }

  lemma BeginsReply(clock: Clock, was: Run, sl: Slave, f: seq<byte>, frame: seq<byte>)
    requires Sane(sl) && sl.mode.Idle?
    ensures Append(was, Onward(clock, StartReply(sl, f).(frames := [frame])))
         == Append(Run(sl, was.out + [ACK_OK], was.frames + [frame]), Onward(clock, FirstPart(sl, f)))
  {
    hide Drain;
    var p := FirstPart(sl, f);
    assert was.out + ([ACK_OK] + p.out) == was.out + [ACK_OK] + p.out;
    assert was.frames + [frame] + [] == was.frames + [frame];
    if p.slave.mode.Idle? {
      var d := Drain(clock, p.slave);
      AppendAssoc(was, StartReply(sl, f).(frames := [frame]), d);
      AppendAssoc(Run(sl, was.out + [ACK_OK], was.frames + [frame]), p, d);
    }
  }

  /** One pass of the loop, as the step function has it. */
  lemma DrainUnfolds(clock: Clock, sl: Slave)
    requires Sane(sl) && sl.mode.Idle?
    ensures sl.buf == [] ==> Drain(clock, sl) == Run(sl, [], [])
    ensures sl.buf != [] && !sl.started && sl.buf[0] == START_BYTE ==>
              Drain(clock, sl) == Drain(clock, sl.(buf := sl.buf[1..], started := true))
    ensures sl.buf != [] && (sl.started || sl.buf[0] != START_BYTE) ==>
              if |sl.buf| < 8 then Drain(clock, sl) == Run(sl, [], [])
              else
                var n := Announced(sl.buf);
                if n == 0 then Drain(clock, sl) == Drain(clock, sl.(buf := sl.buf[1..], acked := 0))
                else if |sl.buf| < n then
                  Drain(clock, sl) == Run(sl.(acked := AckedTo(sl.acked, sl.s, |sl.buf|, n)),
                                          Acks(sl.acked, sl.s, |sl.buf|, n), [])
                else
                  IsFrame(sl.buf[..n])
                  && Drain(clock, sl)
                     == Onward(clock, Handle(clock, sl.(buf := sl.buf[n..], acked := 0), sl.buf[..n]))
  {
    hide Announced, IdOf, Handle;
    if |sl.buf| >= 8 && 0 < Announced(sl.buf) <= |sl.buf| { FrameAtHead(sl.buf); }
  }
}
