/** RCIF frames, their checksum, and the frames contained in a byte stream with noise in it. */
module RcifFrames {
  import opened Bytes
  import opened Numbers

  const START_BYTE: byte := 0x55
  const ACK_OK: byte := 0xBB
  const ACK_BAD_CKSUM: byte := 0xEF
  const MAX_FRAME: nat := 0x534

  // ---------------------------------------------------------------- the checksum

  /** Exclusive or, one binary digit after another. */
  function XorBits(a: nat, b: nat, n: nat): (r: nat)
    requires a < Pow2(n) && b < Pow2(n)
    ensures r < Pow2(n)
    ensures r == 0 <==> a == b
  {
    if n == 0 then 0
    else
      assert a == 2 * (a / 2) + a % 2 && b == 2 * (b / 2) + b % 2;
      assert (a + b) % 2 == 0 <==> a % 2 == b % 2;
      (a + b) % 2 + 2 * XorBits(a / 2, b / 2, n - 1)
  }

  function Xor(a: byte, b: byte): (r: byte)
    ensures r == 0 <==> a == b
  {
    assert Pow2(8) == 256 by { assert Pow2(4) == 16; }
    XorBits(a, b, 8)
  }

  function XorSum(data: seq<byte>): byte
  {
    if data == [] then 0 else Xor(XorSum(data[..|data| - 1]), data[|data| - 1])
  }

  method ComputeXorSum(data: seq<byte>) returns (c: byte)
    ensures c == XorSum(data)
  {
    c := 0;
    for i := 0 to |data|
      invariant c == XorSum(data[..i])
    {
      assert data[..i + 1][..i] == data[..i];
      c := Xor(c, data[i]);
    }
    assert data[..|data|] == data;
  }

  lemma {:induction false} XorDigits(a: nat, b: nat, n: nat, i: nat)
    requires a < Pow2(n) && b < Pow2(n) && i < n
    ensures Digit(XorBits(a, b, n), i) == 1 <==> Digit(a, i) != Digit(b, i)
    decreases n
  {
    XorNext(a, b, n);
    HalfBelow(a, n);
    HalfBelow(b, n);
    hide XorBits, Pow2, Digit;
    var x := XorBits(a, b, n);
    Halves(x, (a + b) % 2, XorBits(a / 2, b / 2, n - 1));
    DigitIs(x, i);
    DigitIs(a, i);
    DigitIs(b, i);
    if i > 0 { XorDigits(a / 2, b / 2, n - 1, i - 1); } else { Parity(a, b); }
  }

  lemma DigitIs(n: nat, i: nat)
    ensures Digit(n, i) == if i == 0 then n % 2 else Digit(n / 2, i - 1)
  {
  }

  lemma Parity(a: nat, b: nat)
    ensures (a + b) % 2 == 1 <==> a % 2 != b % 2
  {
  }

  /** A digit is set exactly where the two bytes differ. */
  lemma XorDigit(a: byte, b: byte, i: nat)
    requires i < 8
    ensures Digit(Xor(a, b), i) == 1 <==> Digit(a, i) != Digit(b, i)
  {
    assert Pow2(8) == 256 by { assert Pow2(4) == 16; }
    XorDigits(a, b, 8, i);
  }

  /** How many of the bytes have digit i set. */
  function CountSet(data: seq<byte>, i: nat): nat
  {
    if data == [] then 0 else CountSet(data[..|data| - 1], i) + Digit(data[|data| - 1], i)
  }

  /** Each digit of the sum is the parity of that digit over all bytes. */
  lemma {:induction false} XorSumDigit(data: seq<byte>, i: nat)
    requires i < 8
    ensures Digit(XorSum(data), i) == CountSet(data, i) % 2
    decreases |data|
  {
    hide Digit, Xor;
    if data == [] {
      NoDigit(i);
    } else {
      XorSumDigit(data[..|data| - 1], i);
      XorDigit(XorSum(data[..|data| - 1]), data[|data| - 1], i);
    }
  }

  lemma {:induction false} NoDigit(i: nat)
    ensures Digit(0, i) == 0
  {
    if i > 0 { NoDigit(i - 1); }
  }

  /** A frame whose last byte is the checksum of the bytes before it sums to zero, and only such a frame. */
  lemma ChecksumZero(frame: seq<byte>)
    requires frame != []
    ensures XorSum(frame) == 0 <==> XorSum(frame[..|frame| - 1]) == frame[|frame| - 1]
  {
    assert XorSum(frame) == Xor(XorSum(frame[..|frame| - 1]), frame[|frame| - 1]);
  }

  lemma SumNext(b: seq<byte>, k: nat, s: byte, t: byte)
    requires k < |b| && XorSum(b[..k]) == s && Xor(s, b[k]) == t
    ensures XorSum(b[..k + 1]) == t
  {
    assert b[..k + 1][..k] == b[..k];
  }

  lemma {:induction false} ZerosSum(b: seq<byte>, k: nat, n: nat)
    requires k <= n <= |b| && forall i :: k <= i < n ==> b[i] == 0
    ensures XorSum(b[..n]) == XorSum(b[..k])
    decreases n
  {
    hide Xor, XorSum;
    if k < n {
      ZerosSum(b, k, n - 1);
      XorZero(XorSum(b[..k]));
      SumNext(b, n - 1, XorSum(b[..k]), XorSum(b[..k]));
    }
  }

  /** Nothing is changed by zero. */
  lemma XorZero(a: byte)
    ensures Xor(a, 0) == a == Xor(0, a)
  {
    assert Pow2(8) == 256 by { assert Pow2(4) == 16; }
    XorBitsZero(a, 8);
  }

  lemma {:induction false} XorBitsZero(a: nat, n: nat)
    requires a < Pow2(n)
    ensures XorBits(a, 0, n) == a == XorBits(0, a, n)
  {
    if n > 0 { XorBitsZero(a / 2, n - 1); }
  }

  lemma HalfBelow(a: nat, n: nat)
    requires n > 0 && a < Pow2(n)
    ensures a / 2 < Pow2(n - 1)
  {
  }

  lemma Halves(x: nat, low: nat, high: nat)
    requires x == low + 2 * high && low < 2
    ensures x / 2 == high && x % 2 == low
  {
  }

  lemma XorNext(a: nat, b: nat, n: nat)
    requires n > 0 && a < Pow2(n) && b < Pow2(n)
    ensures XorBits(a, b, n) == (a + b) % 2 + 2 * XorBits(a / 2, b / 2, n - 1)
  {
  }

  // ---------------------------------------------------------------- frames

  /** u32 id | u16 length | u16 zero | payload | checksum. */
  function Frame(id: nat, payload: seq<byte>): (f: seq<byte>)
    requires id < 0x1_0000_0000 && |payload| < 0x1_0000
    ensures |f| == |payload| + 9
  {
    var body := Le32(id) + Le16(|payload|) + Le16(0) + payload;
    body + [XorSum(body)]
  }

  function IdOf(b: seq<byte>): (id: nat)
    requires |b| >= 8
    ensures id < 0x1_0000_0000
  {
    Get32(b, 0)
  }

  /** The length of the frame a header announces; none for a header no frame can have. */
  function Announced(b: seq<byte>): (n: nat)
    requires |b| >= 8
    ensures n == 0 || 9 <= n < MAX_FRAME
  {
    var plen := Get16(b, 4);
    if IdOf(b) == 0 || IdOf(b) > 0xFFFF || 8 + plen + 1 >= MAX_FRAME then 0 else 8 + plen + 1
  }

  lemma FrameFields(id: nat, payload: seq<byte>)
    requires id < 0x1_0000_0000 && |payload| < 0x1_0000
    ensures var f := Frame(id, payload);
            && IdOf(f) == id && Get16(f, 4) == |payload| && XorSum(f) == 0
            && f[8..|f| - 1] == payload
  {
    var body := Le32(id) + Le16(|payload|) + Le16(0) + payload;
    var f := Frame(id, payload);
    assert f[..|f| - 1] == body;
    ChecksumZero(f);
    assert f[0..4] == Le32(id) && f[4..6] == Le16(|payload|);
    GetLe32(f, 0, id);
    GetLe16(f, 4, |payload|);
  }

  /** A frame the slave recognises: a possible header, and exactly the length that header announces. */
  predicate IsFrame(f: seq<byte>) { |f| >= 8 && Announced(f) == |f| }

  /** The header of a frame can be read off any part of the stream that holds all of it. */
  lemma AnnouncedPrefix(a: seq<byte>, b: seq<byte>)
    requires |a| >= 8
    ensures Announced(a + b) == Announced(a) && IdOf(a + b) == IdOf(a)
  {
  }

  // ---------------------------------------------------------------- a stream of frames

  /** The complete frames of a stream in order, the bytes after them, and whether the start byte was seen. */
  datatype Parsed = Parsed(frames: seq<seq<byte>>, rest: seq<byte>, started: bool)

  function Parse(started: bool, b: seq<byte>): (p: Parsed)
    ensures |p.rest| <= |b|
    decreases |b|
  {
    if b == [] then Parsed([], b, started)
    else if !started && b[0] == START_BYTE then Parse(true, b[1..])
    else if |b| < 8 then Parsed([], b, started)
    else
      var n := Announced(b);
      if n == 0 then Parse(started, b[1..])
      else if |b| < n then Parsed([], b, started)
      else
        var p := Parse(started, b[n..]);
        Parsed([b[..n]] + p.frames, p.rest, p.started)
  }

  /** Bytes that hold no complete frame and nothing to drop. */
  predicate Settled(started: bool, b: seq<byte>)
  {
    && (b != [] ==> started || b[0] != START_BYTE)
    && (|b| >= 8 ==> Announced(b) > |b|)
  }

  lemma {:induction false} ParseSettles(started: bool, b: seq<byte>)
    ensures Settled(Parse(started, b).started, Parse(started, b).rest)
    ensures forall i :: 0 <= i < |Parse(started, b).frames| ==> IsFrame(Parse(started, b).frames[i])
    decreases |b|
  {
    if b == [] {
    } else if !started && b[0] == START_BYTE {
      ParseSettles(true, b[1..]);
    } else if |b| >= 8 {
      var n := Announced(b);
      if n == 0 {
        ParseSettles(started, b[1..]);
      } else if |b| >= n {
        ParseSettles(started, b[n..]);
        assert b == b[..n] + b[n..];
        AnnouncedPrefix(b[..n], b[n..]);
      }
    }
  }

  lemma SettledParse(started: bool, b: seq<byte>)
    requires Settled(started, b)
    ensures Parse(started, b) == Parsed([], b, started)
  {
  }

  /** One parse after another, the second starting from what the first left. */
  function Then(p: Parsed, b: seq<byte>): Parsed
  {
    var q := Parse(p.started, p.rest + b);
    Parsed(p.frames + q.frames, q.rest, q.started)
  }

  lemma FramesAssoc(a: seq<seq<byte>>, b: seq<seq<byte>>, c: seq<seq<byte>>)
    ensures a + (b + c) == a + b + c
  {
  }

  /** Where a stream is cut makes no difference to its frames, to what is left over or to the start flag. */
  lemma {:induction false} ParseStreams(started: bool, a: seq<byte>, b: seq<byte>)
    ensures Parse(started, a + b) == Then(Parse(started, a), b)
    decreases |a|
  {
    hide Announced, IdOf;
    if a == [] {
      assert a + b == b;
    } else if !started && a[0] == START_BYTE {
      assert (a + b)[1..] == a[1..] + b;
      ParseStreams(true, a[1..], b);
    } else if |a| >= 8 {
      AnnouncedPrefix(a, b);
      var n := Announced(a);
      if n == 0 {
        assert (a + b)[1..] == a[1..] + b;
        ParseStreams(started, a[1..], b);
      } else if |a| >= n {
        assert (a + b)[n..] == a[n..] + b && (a + b)[..n] == a[..n];
        ParseStreams(started, a[n..], b);
        var p := Parse(started, a[n..]);
        FramesAssoc([a[..n]], p.frames, Parse(p.started, p.rest + b).frames);
      }
    }
  }

  lemma {:induction false} FramesFit(started: bool, b: seq<byte>, i: nat)
    requires i < |Parse(started, b).frames|
    ensures |Parse(started, b).frames[i]| <= |b|
    decreases |b|
  {
    hide Announced, IdOf;
    if !started && b[0] == START_BYTE {
      FramesFit(true, b[1..], i);
    } else {
      var n := Announced(b);
      if n == 0 {
        FramesFit(started, b[1..], i);
      } else if i > 0 {
        FramesFit(started, b[n..], i - 1);
      }
    }
  }

  /**
   * A frame that arrives at a slave with nothing buffered is recognised exactly unless its id has the start byte as
   * its low byte and the slave still waits for that: then its first byte is taken for the start byte.
   */
  lemma RecognisedExactly(started: bool, f: seq<byte>)
    requires IsFrame(f)
    ensures f in Parse(started, f).frames <==> started || f[0] != START_BYTE
  {
    hide Announced, IdOf;
    if started || f[0] != START_BYTE {
      assert Parse(started, f).frames[0] == f[..|f|] == f;
    } else {
      var fs := Parse(true, f[1..]).frames;
      forall i | 0 <= i < |fs| ensures fs[i] != f { FramesFit(true, f[1..], i); }
    }
  }

  // ---------------------------------------------------------------- the first call

  /** The first request a master makes: id 0x2303, payload 0, 0x40, 0x40. */
  const HELLO: seq<byte> := [0x03, 0x23, 0x00, 0x00, 0x0C, 0x00, 0x00, 0x00, 0x00, 0x00, 0x00, 0x00,
                             0x40, 0x00, 0x00, 0x00, 0x40, 0x00, 0x00, 0x00, 0x2C]

  lemma HelloSum()
    ensures XorSum(HELLO[..20]) == 0x2C
  {
    hide XorSum, Xor;
    var b := HELLO;
    HeaderSum(b, 0x0C, 0x2C);
    ZerosSum(b, 5, 12);
    SizeXors();
    SumNext(b, 12, 0x2C, 0x6C);
    ZerosSum(b, 13, 16);
    SumNext(b, 16, 0x6C, 0x2C);
    ZerosSum(b, 17, 20);
  }

  /** What answers it: the same id and a zero return code. */
  lemma WelcomeSum()
    ensures XorSum([0x03, 0x23, 0x00, 0x00, 0x04, 0x00, 0x00, 0x00, 0x00, 0x00, 0x00, 0x00]) == 0x24
  {
    hide XorSum, Xor;
    var b := [0x03, 0x23, 0x00, 0x00, 0x04, 0x00, 0x00, 0x00, 0x00, 0x00, 0x00, 0x00];
    HeaderSum(b, 0x04, 0x24);
    ZerosSum(b, 5, 12);
    assert b[..12] == b;
  }

  lemma HeaderSum(b: seq<byte>, len: byte, s: byte)
    requires |b| >= 5 && b[0] == 0x03 && b[1] == 0x23 && b[2] == b[3] == 0 && b[4] == len
    requires (len == 0x0C && s == 0x2C) || (len == 0x04 && s == 0x24)
    ensures XorSum(b[..5]) == s
  {
    hide Xor;
    FirstXors();
    assert XorSum(b[..0]) == 0;
    XorZero(0x03);
    SumNext(b, 0, 0, 0x03);
    SumNext(b, 1, 0x03, 0x20);
    ZerosSum(b, 2, 4);
    SumNext(b, 4, 0x20, s);
  }

  lemma FirstXors()
    ensures Xor(0x03, 0x23) == 0x20 && Xor(0x20, 0x0C) == 0x2C && Xor(0x20, 0x04) == 0x24
  {
    hide XorBits, Pow2;
    Powers();
    XorBitsZero(8, 6);
    XorNext(1, 17, 7);
    XorNext(0x03, 0x23, 8);
    XorBitsZero(2, 4);
    XorNext(4, 1, 5);
    XorNext(8, 3, 6);
    XorNext(16, 6, 7);
    XorNext(0x20, 0x0C, 8);
    XorBitsZero(4, 5);
    XorNext(8, 1, 6);
    XorNext(16, 2, 7);
    XorNext(0x20, 0x04, 8);
  }

  lemma SizeXors()
    ensures Xor(0x2C, 0x40) == 0x6C && Xor(0x6C, 0x40) == 0x2C
  {
    hide XorBits, Pow2;
    Powers();
    XorBitsZero(1, 2);
    XorNext(1, 2, 3);
    XorNext(2, 4, 4);
    XorNext(5, 8, 5);
    XorNext(11, 16, 6);
    XorNext(22, 32, 7);
    XorNext(0x2C, 0x40, 8);
    XorBitsZero(0, 1);
    XorNext(1, 1, 2);
    XorNext(3, 2, 3);
    XorNext(6, 4, 4);
    XorNext(13, 8, 5);
    XorNext(27, 16, 6);
    XorNext(54, 32, 7);
    XorNext(0x6C, 0x40, 8);
  }
}
