/** The touch controller on its bus: commands arrive in chunks, frames leave ten bytes at a time. */
module Egalax {
  import opened Bytes
  import opened EgalaxTouch
  import opened Numbers
  import opened Wrappers

  const FRAME: nat := 10
  const SLOTS: nat := 32
  const INNER: nat := 64
  const MAX_XY: int := 0x7FF8

  /** At most ten bytes, filled up with zeros. */
  function Padded(f: seq<byte>): (r: seq<byte>)
    ensures |r| == FRAME
  {
    if |f| >= FRAME then f[..FRAME] else f + Zeros(FRAME - |f|)
  }

  /** 03, the length, and at most eight bytes of payload. */
  function ReplyFrame(payload: seq<byte>): (f: seq<byte>)
    requires |payload| <= 8
    ensures |f| == FRAME
  {
    Padded([3, |payload|] + payload)
  }

  /** One reply, or two for the commands whose caller reads a second one. */
  function Replies(inner: seq<byte>): (fs: seq<seq<byte>>)
    requires |inner| >= 2
    ensures 1 <= |fs| <= 2 && forall i :: 0 <= i < |fs| ==> |fs[i]| == FRAME
  {
    var n: int, f := inner[1], ReplyFrame(Answer(inner));
    if n >= 1 && (Cmd(inner, 0) == 0x44 || Cmd(inner, 0) == 0x45) then [f, f] else [f]
  }

  /** Byte i of the command; zero beyond what was received. */
  function Cmd(inner: seq<byte>, i: nat): byte { if i + 2 < |inner| then inner[i + 2] else 0 }

  /** The start of the command, with the status byte of a "3a fe" query cleared. */
  function Answer(inner: seq<byte>): (a: seq<byte>)
    requires |inner| >= 2
    ensures |a| <= 8
  {
    var n: int := inner[1];
    var a := Padded(inner)[..Min(n + 2, 8)];
    if n >= 2 && Cmd(inner, 0) == 0x3A && Cmd(inner, 1) == 0xFE && |a| > 4 then a[4 := 0] else a
  }

  /** A contact at (x, y) in the panel's mirrored coordinates. */
  function TouchFrame(x: int, y: int, down: bool): (f: seq<byte>)
    requires 0 <= x <= MAX_XY && 0 <= y <= MAX_XY
    ensures |f| == FRAME
  {
    var x', y' := MAX_XY - x, MAX_XY - y;
    [4, if down then 0x81 else 0x80, x' % 256, x' / 256, y' % 256, y' / 256, if down then 0x40 else 0, 0, 0, 0]
  }

  /** A command is complete when it has the two bytes of its head and as many more as these announce. */
  predicate Complete(inner: seq<byte>) { |inner| >= 2 && |inner| >= inner[1] as int + 2 }

  /**
   * Every complete command is answered once, those for 'D' and 'E' twice: 3, a length, and the first bytes of the
   * command; in the answer to "3a fe" the byte behind those two is zero.
   */
  lemma RepliesAre(inner: seq<byte>, k: nat)
    requires Complete(inner) && k < |Replies(inner)|
    ensures var n: nat, f := inner[1], Replies(inner)[k];
            var len := if n + 2 < 8 then n + 2 else 8;
            && |Replies(inner)| == (if n >= 1 && inner[2] in {0x44, 0x45} then 2 else 1)
            && |f| == 10 && f[0] == 3 && f[1] == len
            && forall i :: 0 <= i < 8 ==>
                 f[2 + i] == if i >= len || (i == 4 && n >= 2 && inner[2] == 0x3A && inner[3] == 0xFE) then 0
                             else inner[i]
  {
  }

  /** A report carries the position as the panel has it, upside down: the firmware's own mirroring undoes that. */
  lemma TouchIs(x: int, y: int, down: bool)
    requires 0 <= x <= 32760 && 0 <= y <= 32760
    ensures var f := TouchFrame(x, y, down);
            && f[0] == 4 && f[1] == (if down then 0x81 else 0x80) && f[6] == (if down then 0x40 else 0)
            && 32760 - Get16(f, 2) == x && 32760 - Get16(f, 4) == y && f[7] == f[8] == f[9] == 0
  {
  }

  // ---------------------------------------------------------------- reassembly

  datatype Assembly = Assembly(inner: seq<byte>, done: seq<seq<byte>>)

  /** What one outer chunk does: its bytes are added if there is room; a complete command is taken off. */
  function AddChunk(a: Assembly, data: seq<byte>): Assembly
  {
    var inner := if |a.inner| + |data| <= INNER then a.inner + data else a.inner;
    if Complete(inner) then Assembly([], a.done + [inner]) else Assembly(inner, a.done)
  }

  function AddChunks(a: Assembly, chunks: seq<seq<byte>>): Assembly
    decreases |chunks|
  {
    if chunks == [] then a else AddChunks(AddChunk(a, chunks[0]), chunks[1..])
  }

  function Joined(chunks: seq<seq<byte>>): seq<byte>
  {
    if chunks == [] then [] else chunks[0] + Joined(chunks[1..])
  }

  /**
   * A command of at most 64 bytes, however it is cut into chunks, is put together again exactly, and it is
   * complete with its last chunk and not before.
   */
  lemma {:induction false} Reassembled(have: seq<byte>, chunks: seq<seq<byte>>, done: seq<seq<byte>>)
    requires var all := have + Joined(chunks);
             2 <= |all| <= INNER && |all| == all[1] as int + 2
    requires chunks != [] && forall i :: 0 <= i < |chunks| ==> chunks[i] != []
    ensures AddChunks(Assembly(have, done), chunks) == Assembly([], done + [have + Joined(chunks)])
    ensures forall k :: 0 <= k < |chunks| ==> AddChunks(Assembly(have, done), chunks[..k]).done == done
    decreases |chunks|
  {
    var all, more, a := have + Joined(chunks), have + chunks[0], Assembly(have, done);
    assert all == more + Joined(chunks[1..]);
    assert |more| >= 2 ==> more[1] == all[1];
    assert AddChunks(a, []) == a;
    if |chunks| == 1 {
      assert Joined(chunks[1..]) == [] && more == all;
      assert AddChunks(a, chunks) == AddChunk(a, chunks[0]);
      forall k | 0 <= k < |chunks| ensures AddChunks(a, chunks[..k]).done == done { assert chunks[..k] == []; }
    } else {
      NotEmpty(chunks[1..]);
      assert AddChunk(a, chunks[0]) == Assembly(more, done);
      Reassembled(more, chunks[1..], done);
      forall k | 0 <= k < |chunks| ensures AddChunks(a, chunks[..k]).done == done {
        if k == 0 {
          assert chunks[..k] == [];
        } else {
          assert chunks[..k][0] == chunks[0] && chunks[..k][1..] == chunks[1..][..k - 1];
        }
      }
    }
  }

  lemma NotEmpty(chunks: seq<seq<byte>>)
    requires chunks != [] && chunks[0] != []
    ensures |Joined(chunks)| > 0
  {
  }

  /** Frames added to a queue that drops what it has no room for. */
  function Queued(frames: seq<seq<byte>>, fs: seq<seq<byte>>): seq<seq<byte>>
    decreases |fs|
  {
    if fs == [] then frames else Queued(if |frames| < SLOTS then frames + [fs[0]] else frames, fs[1..])
  }

  lemma QueuedUnfolds(frames: seq<seq<byte>>, f: seq<byte>)
    ensures Queued(frames, [f]) == if |frames| < SLOTS then frames + [f] else frames
    ensures Queued(frames, [f, f])
         == if |Queued(frames, [f])| < SLOTS then Queued(frames, [f]) + [f] else Queued(frames, [f])
  {
    assert [f, f][1..] == [f] && [f][1..] == [];
    var one := if |frames| < SLOTS then frames + [f] else frames;
    assert Queued(one, []) == one;
    assert Queued(one, [f]) == if |one| < SLOTS then one + [f] else one;
  }

  lemma {:induction false} QueuedExtends(frames: seq<seq<byte>>, fs: seq<seq<byte>>)
    ensures frames <= Queued(frames, fs)
    decreases |fs|
  {
    if fs != [] { QueuedExtends(if |frames| < SLOTS then frames + [fs[0]] else frames, fs[1..]); }
  }

  /** The reports of a step of the contact, as frames. */
  function TouchFrames(log: seq<Entry>, x: int, y: int): seq<seq<byte>>
    requires 0 <= x <= MAX_XY && 0 <= y <= MAX_XY
    decreases |log|
  {
    if log == [] then []
    else
      (if log[0].Press? then [] else [TouchFrame(x, y, log[0].Down?)]) + TouchFrames(log[1..], x, y)
  }

  /** Where in the ring the i-th waiting frame is. */
  function SlotAt(head: nat, i: nat): (k: nat)
    ensures k < SLOTS
  {
    (head + i) % SLOTS
  }

  class Controller {
    var queue: array2<byte>
    var qHead: nat
    var qCount: nat
    var idle: bool           // the interrupt line: high while there is nothing to read
    var rx: array<byte>
    var rxLen: nat
    var inner: seq<byte>
    var txPos: nat
    var x: int
    var y: int
    var pressed: bool
    var lastSent: bool
    var moved: bool
    var pending: bool
    var pressNs: int
    var repeat: Option<int>
    ghost var frames: seq<seq<byte>>  // the frames to be read, in order
    ghost var commands: seq<seq<byte>>

    ghost predicate Valid()
      reads this, queue, rx
    {
      && Stored() && qCount == |frames| && rx.Length == FRAME && rxLen <= FRAME && |inner| <= INNER && txPos < 256
      && 0 <= x <= MAX_XY && 0 <= y <= MAX_XY
      && !Complete(inner)
    }

    /** The ring holds the frames, from its head on. */
    ghost predicate Stored()
      reads `queue, `qHead, `qCount, `frames, queue
    {
      && queue.Length0 == SLOTS && queue.Length1 == FRAME && qHead < SLOTS && qCount == |frames| <= SLOTS
      && (forall i :: 0 <= i < |frames| ==> |frames[i]| == FRAME)
      && (forall i, j :: 0 <= i < |frames| && 0 <= j < FRAME ==> frames[i][j] == queue[SlotAt(qHead, i), j])
    }

    /** The interrupt is asserted (low) exactly while a frame waits. */
    ghost predicate IrqFollows()
      reads `idle, `frames
    {
      idle <==> frames == []
    }

    ghost function Contact(): Contact
      reads `pressed, `lastSent, `moved, `pending, `pressNs, `repeat
    {
      EgalaxTouch.Contact(pressed, lastSent, moved, pending, pressNs, repeat)
    }

    constructor ()
      ensures Valid() && fresh(queue) && fresh(rx) && frames == [] && IrqFollows() && Contact() == UNTOUCHED
    {
      queue, rx := new byte[SLOTS, FRAME]((_, _) => 0), new byte[FRAME](_ => 0);
      qHead, qCount, rxLen, inner, txPos, idle := 0, 0, 0, [], 0, true;
      x, y := MAX_XY / 2, MAX_XY / 2;
      pressed, lastSent, moved, pending, pressNs, repeat := false, false, false, false, 0, None;
      frames, commands := [], [];
    }

    /** A frame to be read; a full queue drops it. */
    method QueueFrame(f: seq<byte>)
      requires Stored() && |f| == FRAME
      modifies `qCount, `idle, `frames, queue
      ensures Stored() && (old(IrqFollows()) || |old(frames)| < SLOTS ==> IrqFollows())
      ensures frames == if |old(frames)| < SLOTS then old(frames) + [f] else old(frames)
    {
      if qCount == SLOTS { return; }
      var slot := SlotAt(qHead, qCount);
      forall i | 0 <= i < qCount ensures SlotAt(qHead, i) != slot { OtherSlot(qHead, i, qCount); }
      for j := 0 to FRAME
        modifies queue
        invariant forall i, k :: 0 <= i < SLOTS && 0 <= k < FRAME ==>
                    queue[i, k] == if i == slot && k < j then f[k] else old(queue[i, k])
      {
        queue[slot, j] := f[j];
      }
      qCount := qCount + 1;
      frames := frames + [f];
      idle := qCount == 0;
    }

    method DropFrame()
      requires Stored() && qCount > 0
      modifies `qHead, `qCount, `idle, `frames
      ensures Stored() && IrqFollows() && frames == old(frames)[1..]
    {
      ghost var was, head := frames, qHead;
      qHead := (qHead + 1) % SLOTS;
      qCount := qCount - 1;
      frames := frames[1..];
      idle := qCount == 0;
      forall i, j | 0 <= i < |frames| && 0 <= j < FRAME ensures frames[i][j] == queue[SlotAt(qHead, i), j] {
        NextSlot(head, i);
        assert was[i + 1][j] == queue[SlotAt(head, i + 1), j];
      }
    }

    // -------------------------------------------------------------- the bus

    method StartSend()
      modifies `rxLen
      ensures rxLen == 0
    {
      rxLen := 0;
    }

    method StartRecv()
      modifies `txPos
      ensures txPos == 0
    {
      txPos := 0;
    }

    /** A byte from the host; the eleventh and later ones are lost. */
    method Send(data: byte)
      requires Valid()
      modifies `rxLen, rx
      ensures Valid()
      ensures if old(rxLen) < FRAME then rxLen == old(rxLen) + 1 && rx[..] == old(rx[..])[old(rxLen) := data]
              else rxLen == old(rxLen) && rx[..] == old(rx[..])
    {
      hide Stored, Complete;
      if rxLen < FRAME {
        rx[rxLen] := data;
        rxLen := rxLen + 1;
      }
    }

    /** The next byte of the frame being read; after its tenth byte the frame is gone. */
    method Recv() returns (v: byte)
      requires Valid()
      modifies `txPos, `qHead, `qCount, `idle, `frames
      ensures Valid() && (old(IrqFollows()) ==> IrqFollows())
      ensures v == if old(frames) != [] && old(txPos) < FRAME then old(frames[0][txPos]) else 0
      ensures txPos == (old(txPos) + 1) % 256
      ensures frames == if old(txPos) == FRAME - 1 && old(frames) != [] then old(frames)[1..] else old(frames)
    {
      v := 0;
      if qCount > 0 && txPos < FRAME {
        v := queue[qHead, txPos];
        assert v == queue[SlotAt(qHead, 0), txPos];
      }
      txPos := (txPos + 1) % 256;
      if txPos == FRAME && qCount > 0 {
        DropFrame();
      }
    }

    /** Answer the command that has been put together. */
    method Command()
      requires Stored() && Complete(inner)
      modifies `qCount, `idle, `frames, `commands, queue
      ensures Stored() && (old(IrqFollows()) ==> IrqFollows())
      ensures frames == Queued(old(frames), Replies(inner)) && commands == old(commands) + [inner]
    {
      hide Stored;
      QueuedUnfolds(frames, ReplyFrame(Answer(inner)));
      commands := commands + [inner];
      var n: int, f := inner[1], ReplyFrame(Answer(inner));
      QueueFrame(f);
      if n >= 1 && (Cmd(inner, 0) == 0x44 || Cmd(inner, 0) == 0x45) {
        QueueFrame(f);
      }
    }

    /**
     * The end of a transfer. A chunk of a command is added to what is there, and a command that is complete is
     * answered; a frame that was only read in part is gone.
     */
    method Finish()
      requires Valid()
      modifies `rxLen, `inner, `txPos, `qHead, `qCount, `idle, `frames, `commands, queue
      ensures Valid() && (old(IrqFollows()) ==> IrqFollows()) && txPos == 0 && rxLen == 0
      ensures var data := rx[2..2 + Min(rx[1], 8)];
              if old(rxLen) == 0 then
                inner == old(inner) && commands == old(commands)
                && frames == if 0 < old(txPos) < FRAME && old(frames) != [] then old(frames)[1..] else old(frames)
              else if rx[0] != 3 then inner == [] && commands == old(commands) && frames == old(frames)
              else
                Assembly(inner, commands) == AddChunk(Assembly(old(inner), old(commands)), data)
                && frames == if commands == old(commands) then old(frames)
                             else Queued(old(frames), Replies(commands[|commands| - 1]))
    {
      hide Replies, Queued;
      if rxLen > 0 {
        if rx[0] == 3 {
          var n := Min(rx[1], 8);
          if |inner| + n <= INNER {
            inner := inner + rx[2..2 + n];
          }
          if Complete(inner) {
            Command();
            inner := [];
          }
        } else {
          inner := [];
        }
        rxLen := 0;
      } else if txPos > 0 && txPos < FRAME && qCount > 0 {
        DropFrame();
      }
      txPos := 0;
    }

    /** The host reads one frame: a start and ten bytes. */
    method ReadFrame() returns (f: seq<byte>)
      requires Valid() && IrqFollows() && frames != []
      modifies `txPos, `qHead, `qCount, `idle, `frames
      ensures Valid() && IrqFollows() && f == old(frames)[0] && frames == old(frames)[1..] && txPos == FRAME
    {
      hide Stored, IrqFollows;
      StartRecv();
      f := [];
      ghost var first := frames[0];
      FirstIsWhole();
      for i := 0 to FRAME
        invariant Valid() && IrqFollows() && txPos == i && f == first[..i]
        invariant frames == if i < FRAME then old(frames) else old(frames)[1..]
      {
        var v := Recv();
        f := f + [v];
      }
      assert first[..FRAME] == first;
    }

    lemma FirstIsWhole()
      requires Stored() && frames != []
      ensures |frames[0]| == FRAME
    {
    }

    /**
     * As many ten-byte reads as frames wait, each ended with a stop or going straight to the next start: every frame
     * comes once, in order, and the interrupt is released after the last. If a write was left unfinished, the first
     * stop ends that too, and its answers are what waits then.
     */
    method ReadAll(stops: seq<bool>) returns (got: seq<seq<byte>>)
      requires Valid() && IrqFollows() && |stops| == |frames|
      modifies `rxLen, `inner, `txPos, `qHead, `qCount, `idle, `frames, `commands, queue
      ensures Valid() && IrqFollows() && got == old(frames)
      ensures old(rxLen) == 0 || true !in stops ==>
                frames == [] && idle && inner == old(inner) && commands == old(commands) && rxLen == old(rxLen)
    {
      hide Stored, IrqFollows;
      got := [];
      ghost var rest, stopped := frames, false;
      for i := 0 to |stops|
        invariant Valid() && IrqFollows() && |rest| == |stops| - i && rest <= frames && got + rest == old(frames)
        invariant stopped ==> true in stops
        invariant old(rxLen) == 0 || !stopped ==>
                    frames == rest && inner == old(inner) && commands == old(commands) && rxLen == old(rxLen)
      {
        NextOf(got, rest, frames);
        var f := ReadFrame();
        got := got + [f];
        rest := rest[1..];
        if stops[i] {
          stopped := true;
          ghost var left := frames;
          Settle();
          Longer(rest, left, frames);
        }
      }
      assert got + [] == got;
      IdleWhenEmpty();
    }

    lemma IdleWhenEmpty()
      requires IrqFollows()
      ensures idle <==> frames == []
    {
    }

    /** A stop after a whole frame: no frame is lost, and without an unfinished write none is added. */
    method Settle()
      requires Valid() && IrqFollows() && txPos == FRAME
      modifies `rxLen, `inner, `txPos, `qHead, `qCount, `idle, `frames, `commands, queue
      ensures Valid() && IrqFollows() && rxLen == 0 && old(frames) <= frames
      ensures old(rxLen) == 0 ==> inner == old(inner) && commands == old(commands) && frames == old(frames)
    {
      hide Stored, IrqFollows, Queued;
      ghost var was := frames;
      Finish();
      if commands != old(commands) { QueuedExtends(was, Replies(commands[|commands| - 1])); }
    }

    // -------------------------------------------------------------- the contact

    method QueueTouch(down: bool)
      requires Valid()
      modifies `qCount, `idle, `frames, queue
      ensures Valid() && (old(IrqFollows()) ==> IrqFollows())
      ensures frames == Queued(old(frames), [TouchFrame(x, y, down)])
    {
      hide Stored, Complete;
      var x', y' := MAX_XY - x, MAX_XY - y;
      QueueFrame([4, if down then 0x81 else 0x80, x' % 256, x' / 256, y' % 256, y' / 256,
                  if down then 0x40 else 0, 0, 0, 0]);
    }

    method MoveTo(x: int, y: int)
      requires Valid() && 0 <= x <= MAX_XY && 0 <= y <= MAX_XY
      modifies `x, `y, `moved
      ensures Valid() && this.x == x / 8 * 8 && this.y == y / 8 * 8
      ensures Contact() == old(Contact()).(moved := true)
    {
      this.x, this.y, moved := x / 8 * 8, y / 8 * 8, true;
    }

    method SetButton(down: bool)
      requires Valid()
      modifies `pressed
      ensures Valid() && Contact() == Button(old(Contact()), down)
    {
      pressed := down;
    }

    method ReleaseContact()
      requires Valid()
      modifies `pending, `repeat, `qCount, `idle, `frames, queue
      ensures Valid() && (old(IrqFollows()) ==> IrqFollows())
      ensures frames == Queued(old(frames), [TouchFrame(x, y, false)])
      ensures Contact() == old(Contact()).(pending := false, timer := None)
    {
      pending := false;
      QueueTouch(false);
      repeat := None;
    }

    method PressContact(now: int)
      requires Valid()
      modifies `pending, `pressNs, `repeat, `qCount, `idle, `frames, queue
      ensures Valid() && (old(IrqFollows()) ==> IrqFollows())
      ensures frames == Queued(old(frames), [TouchFrame(x, y, true)])
      ensures Contact() == old(Contact()).(pending := false, pressNs := now, timer := Some(now + REPEAT_NS))
    {
      hide Stored, Complete, TouchFrame, IrqFollows, Queued;
      pending := false;
      pressNs := now;
      QueueTouch(true);
      repeat := Some(now + REPEAT_NS);
    }

    /** Act on the button and the position. */
    method InputSync(now: int)
      requires Valid()
      modifies `lastSent, `moved, `pending, `pressNs, `repeat, `qCount, `idle, `frames, queue
      ensures Valid() && (old(IrqFollows()) ==> IrqFollows())
      ensures Contact() == Sync(old(Contact()), now).contact
      ensures frames == Queued(old(frames), TouchFrames(Sync(old(Contact()), now).log, x, y))
    {
      hide Stored, Complete, TouchFrame, IrqFollows, TouchFrames, Queued;
      OneTouch(Down(now), x, y);
      OneTouch(Up(now), x, y);
      PressTouch(now, x, y);
      NoTouch(frames, x, y);
      if pressed != lastSent {
        lastSent := pressed;
        if pressed {
          PressContact(now);
        } else if now - pressNs >= HOLD_NS {
          ReleaseContact();
        } else {
          pending := true;
        }
      } else if pressed && moved {
        QueueTouch(true);
      }
      moved := false;
    }

    /** The repeat timer. */
    method RepeatTimer(now: int)
      requires Valid() && repeat.Some?
      modifies `pending, `repeat, `qCount, `idle, `frames, queue
      ensures Valid() && (old(IrqFollows()) ==> IrqFollows())
      ensures var s := Repeat(old(Contact()), now, old(frames) != []);
              Contact() == s.contact && frames == Queued(old(frames), TouchFrames(s.log, x, y))
    {
      hide Stored, Complete, TouchFrame, IrqFollows, TouchFrames, Queued;
      NoTouch(frames, x, y);
      OneTouch(Down(now), x, y);
      OneTouch(Up(now), x, y);
      repeat := None;
      if pending && now - pressNs >= HOLD_NS {
        ReleaseContact();
        return;
      }
      if !pressed && !pending { return; }
      if qCount == 0 {
        QueueTouch(true);
      }
      repeat := Some(now + REPEAT_NS);
    }

    method Reset()
      requires Valid()
      modifies `rxLen, `inner, `qHead, `qCount, `txPos, `pressed, `lastSent, `moved, `pending, `repeat, `idle, `frames
      ensures Valid() && IrqFollows() && idle && frames == [] && inner == []
      ensures Contact() == UNTOUCHED.(pressNs := old(pressNs))
    {
      hide Complete, Stored, IrqFollows;
      NothingIsIncomplete();
      rxLen, inner, txPos := 0, [], 0;
      EmptyQueue();
      ForgetContact();
    }

    method ForgetContact()
      modifies `pressed, `lastSent, `moved, `pending, `repeat
      ensures Contact() == UNTOUCHED.(pressNs := old(pressNs))
    {
      pressed, lastSent, moved, pending, repeat := false, false, false, false, None;
    }

    method EmptyQueue()
      requires Stored()
      modifies `qHead, `qCount, `idle, `frames
      ensures Stored() && IrqFollows() && frames == [] && idle && qCount == 0
    {
      qHead, qCount, frames := 0, 0, [];
      idle := qCount == 0;
    }
  }

  lemma NothingIsIncomplete()
    ensures !Complete([])
  {
  }

  lemma OtherSlot(head: nat, i: nat, n: nat)
    requires i < n < SLOTS
    ensures SlotAt(head, i) != SlotAt(head, n)
  {
  }

  lemma NextSlot(head: nat, i: nat)
    requires head < SLOTS
    ensures SlotAt((head + 1) % SLOTS, i) == SlotAt(head, i + 1)
  {
  }

  lemma NextOf<T>(got: seq<T>, rest: seq<T>, all: seq<T>)
    requires rest != [] && rest <= all
    ensures all[0] == rest[0] && rest[1..] <= all[1..] && got + [all[0]] + rest[1..] == got + rest
    ensures all == rest ==> all[1..] == rest[1..]
  {
  }

  lemma Longer<T>(a: seq<T>, b: seq<T>, c: seq<T>)
    requires a <= b <= c
    ensures a <= c
  {
  }

  lemma NoTouch(frames: seq<seq<byte>>, x: int, y: int)
    requires 0 <= x <= MAX_XY && 0 <= y <= MAX_XY
    ensures TouchFrames([], x, y) == [] && Queued(frames, []) == frames
  {
  }

  lemma PressTouch(now: int, x: int, y: int)
    requires 0 <= x <= MAX_XY && 0 <= y <= MAX_XY
    ensures TouchFrames([Press(now), Down(now)], x, y) == [TouchFrame(x, y, true)]
  {
    hide TouchFrame;
    OneTouch(Down(now), x, y);
    assert [Press(now), Down(now)][1..] == [Down(now)];
  }

  lemma OneTouch(e: Entry, x: int, y: int)
    requires 0 <= x <= MAX_XY && 0 <= y <= MAX_XY && !e.Press?
    ensures TouchFrames([e], x, y) == [TouchFrame(x, y, e.Down?)]
  {
    assert [e][1..] == [];
  }
}
