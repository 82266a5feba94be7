/** VFAT long names: 13 UTF-16 units an entry, stored last entry first, tied to the short entry by a checksum. */
module LongNames {
  import opened Bytes
  import opened Numbers
  import opened ShortNames

  type Entry = e: seq<byte> | |e| == 32 witness Zeros(32)

  const ATTR_LFN: byte := 0x0F
  // Each entry carries 26 bytes of the name.

  /** Names the writer and the reader count alike: BMP characters without NUL, U+FFFF or surrogates. */
  predicate IsBmp(name: Name)
  {
    forall i :: 0 <= i < |name| ==> 0 < name[i] < 0xFFFF && !(0xD800 <= name[i] < 0xE000)
  }

  /** Ordinals have six bits next to the last-entry flag, so at most 63 entries. */
  const MAX_UNITS: nat := 63 * 13

  function Utf16(s: Name): (b: seq<byte>)
    ensures |b| == 2 * |s|
  {
    if s == [] then [] else Le16(s[0]) + Utf16(s[1..])
  }

  function FromUtf16(b: seq<byte>): (s: Name)
    ensures |s| == |b| / 2
  {
    if |b| < 2 then [] else [Get16(b, 0)] + FromUtf16(b[2..])
  }

  function Repeat(b: byte, n: nat): (r: seq<byte>)
    ensures |r| == n
  {
    seq(n, _ => b)
  }

  /** Terminator and filler, only when the name leaves room in its last entry. */
  function Filled(u: seq<byte>): (r: seq<byte>)
    requires |u| % 2 == 0
    ensures |r| % 26 == 0
    ensures |r| == 26 * CeilDiv(|u|, 26)
  {
    FillerCount(|u|);
    if |u| % 26 == 0 then u
    else u + [0, 0] + Repeat(0xFF, (-(|u| + 2)) % 26)
  }

  lemma FillerCount(n: nat)
    requires n % 2 == 0
    ensures n % 26 != 0 ==> n + 2 + (-(n + 2)) % 26 == 26 * CeilDiv(n, 26)
  {
    var q, r := n / 26, n % 26;
    if r != 0 {
      Divided(-(n + 2), -(q + 1), 24 - r);
      Divided(n + 25, q + 1, r - 1);
    }
  }

  lemma Divided(a: int, q: int, r: nat)
    requires a == 26 * q + r && r < 26
    ensures a / 26 == q && a % 26 == r
  {
  }

  function PartCount(name: Name): (n: nat)
    ensures |name| <= MAX_UNITS ==> n <= 63
  {
    CeilDiv(|name|, 13)
  }

  lemma FilledLength(name: Name)
    ensures |Filled(Utf16(name))| == 26 * PartCount(name)
  {
    assert CeilDiv(2 * |name|, 26) == CeilDiv(|name|, 13);
  }

  /** i | (0x40 if last). */
  function Ordinal(i: nat, last: bool): (b: byte)
    requires 1 <= i <= 63
    ensures b != 0 && b % 64 == i
  {
    if last then i + 0x40 else i
  }

  function LfnEntry(ord: byte, chk: byte, p: seq<byte>): (e: Entry)
    requires |p| == 26
    ensures e[0] == ord && e[11] == ATTR_LFN && e[13] == chk
    ensures Payload(e) == p
  {
    var e := [ord] + p[..10] + [ATTR_LFN, 0, chk] + p[10..22] + [0, 0] + p[22..];
    assert e[1..11] == p[..10] && e[14..26] == p[10..22] && e[28..32] == p[22..];
    assert p[..10] + p[10..22] + p[22..] == p;
    e
  }

  /** The 26 bytes of name in a long-name entry. */
  function Payload(e: Entry): (p: seq<byte>)
    ensures |p| == 26
  {
    e[1..11] + e[14..26] + e[28..32]
  }

  function PartEntry(name: Name, chk: byte, i: nat): (e: Entry)
    requires |name| <= MAX_UNITS && 1 <= i <= PartCount(name)
  {
    FilledLength(name);
    LfnEntry(Ordinal(i, i == PartCount(name)), chk, Filled(Utf16(name))[26 * (i - 1)..26 * i])
  }

  /** Entries i, i-1, ..., 1 of a name. */
  function EntriesDown(name: Name, chk: byte, i: nat): (es: seq<Entry>)
    requires |name| <= MAX_UNITS && i <= PartCount(name)
    ensures |es| == i
  {
    if i == 0 then [] else [PartEntry(name, chk, i)] + EntriesDown(name, chk, i - 1)
  }

  lemma {:induction false} DownAt(name: Name, chk: byte, i: nat, k: nat)
    requires |name| <= MAX_UNITS && k < i <= PartCount(name)
    ensures EntriesDown(name, chk, i)[k] == PartEntry(name, chk, i - k)
  {
    hide PartEntry;
    if k > 0 { DownAt(name, chk, i - 1, k - 1); }
  }

  lemma DownStep(es: seq<Entry>, name: Name, chk: byte, i: nat)
    requires |name| <= MAX_UNITS && 1 <= i <= PartCount(name)
    ensures es + EntriesDown(name, chk, i) == es + [PartEntry(name, chk, i)] + EntriesDown(name, chk, i - 1)
  {
    hide PartEntry;
  }

  lemma AllPartsDown(name: Name, chk: byte, u: seq<byte>)
    requires |name| <= MAX_UNITS && u == Filled(Utf16(name))
    ensures |u| / 26 == PartCount(name) <= 63 && |u| == 26 * PartCount(name)
    ensures LongEntries(name, chk) == [] + EntriesDown(name, chk, PartCount(name))
  {
    FilledLength(name);
  }

  lemma NoneDown(es: seq<Entry>, name: Name, chk: byte)
    requires |name| <= MAX_UNITS
    ensures es + EntriesDown(name, chk, 0) == es
  {
  }

  lemma PartIs(name: Name, chk: byte, i: nat, u: seq<byte>)
    requires |name| <= MAX_UNITS && 1 <= i <= PartCount(name) && u == Filled(Utf16(name))
    ensures PartCount(name) <= 63 && |u| == 26 * PartCount(name)
    ensures PartEntry(name, chk, i) == LfnEntry(Ordinal(i, i == PartCount(name)), chk, u[26 * (i - 1)..26 * i])
  {
    FilledLength(name);
    hide LfnEntry, Ordinal, Filled, Utf16;
  }

  function LongEntries(name: Name, chk: byte): (es: seq<Entry>)
    requires |name| <= MAX_UNITS
  {
    EntriesDown(name, chk, PartCount(name))
  }

  // ---------------------------------------------------------------- the reader's side

  function OrdinalOf(e: Entry): nat { e[0] % 64 }

  /** A stable sort by ordinal, one entry at a time. */
  function Insert(e: Entry, es: seq<Entry>): (r: seq<Entry>)
    ensures |r| == |es| + 1
  {
    if es == [] || OrdinalOf(e) <= OrdinalOf(es[0]) then [e] + es
    else [es[0]] + Insert(e, es[1..])
  }

  function Sorted(es: seq<Entry>): (r: seq<Entry>)
    ensures |r| == |es|
  {
    if es == [] then [] else Insert(es[0], Sorted(es[1..]))
  }

  function Payloads(es: seq<Entry>): (p: seq<byte>)
    ensures |p| == 26 * |es|
  {
    if es == [] then [] else Payload(es[0]) + Payloads(es[1..])
  }

  function UpToNul(s: Name): Name
  {
    if s == [] || s[0] == 0 then [] else [s[0]] + UpToNul(s[1..])
  }

  function WithoutFiller(s: Name): Name
  {
    if s == [] then [] else (if s[0] == 0xFFFF then [] else [s[0]]) + WithoutFiller(s[1..])
  }

  function DecodeName(lfn: seq<Entry>): Name
  {
    WithoutFiller(UpToNul(FromUtf16(Payloads(Sorted(lfn)))))
  }

  /** A name ends at its first NUL, or at its end. */
  lemma {:induction false} NulEnds(a: Name, b: Name)
    requires 0 !in a
    ensures UpToNul(a + [0] + b) == a && UpToNul(a) == a
  {
    if a == [] {
      assert [] + [0] + b == [0] + b;
    } else {
      assert (a + [0] + b)[1..] == a[1..] + [0] + b;
      NulEnds(a[1..], b);
    }
  }

  /** Filler is dropped wherever it stands, and nothing else. */
  lemma {:induction false} FillerDropped(a: Name, b: Name)
    requires 0xFFFF !in a
    ensures WithoutFiller(a + [0xFFFF] + b) == a + WithoutFiller(b) && WithoutFiller(a) == a
  {
    if a == [] {
      assert [] + [0xFFFF] + b == [0xFFFF] + b && ([0xFFFF] + b)[1..] == b;
    } else {
      assert (a + [0xFFFF] + b)[1..] == a[1..] + [0xFFFF] + b;
      FillerDropped(a[1..], b);
    }
  }

  // ---------------------------------------------------------------- round trip

  lemma {:induction false} InsertLargest(e: Entry, es: seq<Entry>)
    requires forall k :: 0 <= k < |es| ==> OrdinalOf(es[k]) < OrdinalOf(e)
    ensures Insert(e, es) == es + [e]
  {
    if es != [] {
      InsertLargest(e, es[1..]);
    }
  }

  lemma PartPayload(name: Name, chk: byte, i: nat)
    requires |name| <= MAX_UNITS && 1 <= i <= PartCount(name)
    ensures |Filled(Utf16(name))| == 26 * PartCount(name)
    ensures OrdinalOf(PartEntry(name, chk, i)) == i
    ensures Payload(PartEntry(name, chk, i)) == Filled(Utf16(name))[26 * (i - 1)..26 * i]
  {
    FilledLength(name);
  }

  /** Entries 1, 2, ..., i of a name. */
  function EntriesUp(name: Name, chk: byte, i: nat): (es: seq<Entry>)
    requires |name| <= MAX_UNITS && i <= PartCount(name)
    ensures |es| == i
  {
    if i == 0 then [] else EntriesUp(name, chk, i - 1) + [PartEntry(name, chk, i)]
  }

  lemma {:induction false} UpOrdinals(name: Name, chk: byte, i: nat)
    requires |name| <= MAX_UNITS && i <= PartCount(name)
    ensures forall k :: 0 <= k < i ==> OrdinalOf(EntriesUp(name, chk, i)[k]) == k + 1
  {
    if i > 0 {
      UpOrdinals(name, chk, i - 1);
      PartPayload(name, chk, i);
    }
  }

  /** Sorting the entries i..1 puts them in the order 1..i. */
  lemma {:induction false} SortedDown(name: Name, chk: byte, i: nat)
    requires |name| <= MAX_UNITS && i <= PartCount(name)
    ensures Sorted(EntriesDown(name, chk, i)) == EntriesUp(name, chk, i)
  {
    if i > 0 {
      SortedDown(name, chk, i - 1);
      UpOrdinals(name, chk, i - 1);
      PartPayload(name, chk, i);
      hide PartEntry, OrdinalOf, Insert;
      InsertLargest(PartEntry(name, chk, i), EntriesUp(name, chk, i - 1));
      assert EntriesDown(name, chk, i)[1..] == EntriesDown(name, chk, i - 1);
    }
  }

  /** In that order their payloads are a prefix of the name's bytes. */
  lemma {:induction false} PayloadsUp(name: Name, chk: byte, i: nat)
    requires |name| <= MAX_UNITS && i <= PartCount(name)
    ensures |Filled(Utf16(name))| == 26 * PartCount(name)
    ensures Payloads(EntriesUp(name, chk, i)) == Filled(Utf16(name))[..26 * i]
  {
    hide PartEntry, Filled, Utf16, Payload, Payloads, PartCount;
    FilledLength(name);
    if i == 0 {
      NoPayloads();
    } else {
      PayloadsUp(name, chk, i - 1);
      PayloadsAppend(EntriesUp(name, chk, i - 1), PartEntry(name, chk, i));
      PartPayload(name, chk, i);
      Rejoin(Filled(Utf16(name)), 26 * (i - 1), 26 * i);
    }
  }

  lemma NoPayloads()
    ensures Payloads([]) == []
  {
  }

  lemma Rejoin(f: seq<byte>, a: nat, b: nat)
    requires a <= b <= |f|
    ensures f[..a] + f[a..b] == f[..b]
  {
  }

  lemma {:induction false} PayloadsAppend(es: seq<Entry>, e: Entry)
    ensures Payloads(es + [e]) == Payloads(es) + Payload(e)
  {
    hide Payload;
    if es == [] {
      assert Payloads([e]) == Payload(e) + Payloads([]);
    } else {
      PayloadsAppend(es[1..], e);
      assert (es + [e])[1..] == es[1..] + [e];
    }
  }

  lemma FirstUnit(c: unit, tail: seq<byte>)
    ensures FromUtf16(Le16(c) + tail) == [c] + FromUtf16(tail)
  {
    var b := Le16(c) + tail;
    assert b[0..2] == Le16(c) && b[2..] == tail;
    GetLe16(b, 0, c);
  }

  lemma {:induction false} Utf16RoundTrip(s: Name, tail: seq<byte>)
    ensures FromUtf16(Utf16(s) + tail) == s + FromUtf16(tail)
  {
    hide FromUtf16, Le16;
    if s == [] {
      assert Utf16(s) + tail == tail;
    } else {
      assert Utf16(s) + tail == Le16(s[0]) + (Utf16(s[1..]) + tail);
      FirstUnit(s[0], Utf16(s[1..]) + tail);
      Utf16RoundTrip(s[1..], tail);
      assert s + FromUtf16(tail) == [s[0]] + (s[1..] + FromUtf16(tail));
    }
  }

  lemma {:induction false} UpToNulStops(s: Name, rest: Name)
    requires IsBmp(s) && (rest == [] || rest[0] == 0)
    ensures UpToNul(s + rest) == s
  {
    if s != [] {
      assert (s + rest)[1..] == s[1..] + rest;
      UpToNulStops(s[1..], rest);
    } else {
      assert s + rest == rest;
    }
  }

  lemma {:induction false} NoFiller(s: Name)
    requires IsBmp(s)
    ensures WithoutFiller(s) == s
  {
    if s != [] { NoFiller(s[1..]); }
  }

  /** The entries of a name decode to the name, whatever its length up to 819 units. */
  lemma LongNameRoundTrip(name: Name, chk: byte)
    requires IsBmp(name) && |name| <= MAX_UNITS
    ensures DecodeName(LongEntries(name, chk)) == name
  {
    hide PartEntry;
    var u := Utf16(name);
    SortedDown(name, chk, PartCount(name));
    PayloadsUp(name, chk, PartCount(name));
    assert Payloads(Sorted(LongEntries(name, chk))) == Filled(u);
    var tail := Filled(u)[|u|..];
    assert Filled(u) == u + tail;
    Utf16RoundTrip(name, tail);
    if tail != [] {
      assert tail[0] == 0 && tail[1] == 0;
      assert FromUtf16(tail)[0] == 0;
    }
    UpToNulStops(name, FromUtf16(tail));
    NoFiller(name);
  }

  /** Exactly ceil(len / 13) entries, last first, only the first stored one flagged, all carrying the checksum. */
  lemma LongEntriesShape(name: Name, chk: byte)
    requires |name| <= MAX_UNITS
    ensures var es := LongEntries(name, chk);
            && |es| == CeilDiv(|name|, 13)
            && (forall k :: 0 <= k < |es| ==>
                  && es[k][0] == (|es| - k) + (if k == 0 then 0x40 else 0)
                  && es[k][11] == ATTR_LFN && es[k][13] == chk)
  {
    var es := LongEntries(name, chk);
    forall k | 0 <= k < |es|
      ensures es[k][0] == (|es| - k) + (if k == 0 then 0x40 else 0) && es[k][11] == ATTR_LFN && es[k][13] == chk
    {
      DownAt(name, chk, |es|, k);
      PartFields(name, chk, |es| - k);
    }
  }

  /** The j-th of the thirteen units of a long-name entry. */
  function UnitAt(e: Entry, j: nat): nat
    requires j < 13
  {
    Get16(e, if j < 5 then 1 + 2 * j else if j < 11 then 14 + 2 * (j - 5) else 28 + 2 * (j - 11))
  }

  /**
   * Which unit stands where: the name in order of the ordinals, then, if there is room, a zero and 0xFFFF. The bytes
   * between the units are a zero type and a zero cluster.
   */
  lemma StoredUnits(name: Name, chk: byte, i: nat, j: nat)
    requires |name| <= MAX_UNITS && 1 <= i <= PartCount(name) && j < 13
    ensures |LongEntries(name, chk)| == PartCount(name)
    ensures var e, k := LongEntries(name, chk)[PartCount(name) - i], 13 * (i - 1) + j;
            && UnitAt(e, j) == (if k < |name| then name[k] else if k == |name| then 0 else 0xFFFF)
            && e[12] == e[26] == e[27] == 0
  {
    hide Utf16, Filled, PartCount, LfnEntry, Get16, UnitAt;
    DownAt(name, chk, PartCount(name), PartCount(name) - i);
    FilledLength(name);
    var u, k := Filled(Utf16(name)), 13 * (i - 1) + j;
    assert PartCount(name) <= 63;
    UnitOfPart(Ordinal(i, i == PartCount(name)), chk, u[26 * (i - 1)..26 * i], j);
    UnitOfSlice(u, i, j);
    FilledUnits(name, k);
  }

  lemma UnitOfSlice(u: seq<byte>, i: nat, j: nat)
    requires 1 <= i && 26 * i <= |u| && j < 13
    ensures var p := u[26 * (i - 1)..26 * i];
            p[2 * j] as int + 256 * (p[2 * j + 1] as int) == Get16(u, 2 * (13 * (i - 1) + j))
  {
  }

  lemma UnitOfPart(ord: byte, chk: byte, p: seq<byte>, j: nat)
    requires |p| == 26 && j < 13
    ensures UnitAt(LfnEntry(ord, chk, p), j) == p[2 * j] as int + 256 * (p[2 * j + 1] as int)
    ensures var e := LfnEntry(ord, chk, p); e[12] == e[26] == e[27] == 0
  {
  }

  lemma FilledUnits(name: Name, k: nat)
    requires 2 * k + 2 <= |Filled(Utf16(name))|
    ensures Get16(Filled(Utf16(name)), 2 * k) == if k < |name| then name[k] else if k == |name| then 0 else 0xFFFF
  {
    if k < |name| { Utf16At(name, k); }
  }

  lemma {:induction false} Utf16At(s: Name, k: nat)
    requires k < |s|
    ensures Get16(Utf16(s), 2 * k) == s[k]
  {
    if k > 0 { Utf16At(s[1..], k - 1); }
  }

  lemma PartFields(name: Name, chk: byte, i: nat)
    requires |name| <= MAX_UNITS && 1 <= i <= PartCount(name)
    ensures var e := PartEntry(name, chk, i);
            e[0] == i + (if i == PartCount(name) then 0x40 else 0) && e[11] == ATTR_LFN && e[13] == chk
  {
    FilledLength(name);
  }

  // ---------------------------------------------------------------- checksum and the program's loop

  function ChecksumFrom(s: byte, b: seq<byte>): byte
    decreases |b|
  {
    if b == [] then s
    else ChecksumFrom((s % 2 * 128 + s / 2 + b[0]) % 256, b[1..])
  }

  function Checksum(short11: seq<byte>): byte { ChecksumFrom(0, short11) }

  lemma {:induction false} ChecksumSnoc(s: byte, b: seq<byte>, c: byte)
    ensures ChecksumFrom(s, b + [c]) == ChecksumFrom(ChecksumFrom(s, b), [c])
    decreases |b|
  {
    if b == [] {
      assert [] + [c] == [c];
    } else {
      assert (b + [c])[1..] == b[1..] + [c];
      ChecksumSnoc((s % 2 * 128 + s / 2 + b[0]) % 256, b[1..], c);
    }
  }

  /**
   * Every further byte is added, modulo 256, to the checksum so far turned by one digit: digit 0 becomes digit 7,
   * every other one moves down.
   */
  lemma ChecksumStep(b: seq<byte>, c: byte) returns (turned: byte)
    ensures Checksum([]) == 0 && Checksum(b + [c]) == (turned + c) % 256
    ensures forall i :: 0 <= i < 8 ==> Digit(turned, (i + 7) % 8) == Digit(Checksum(b), i)
  {
    var s := Checksum(b);
    turned := s % 2 * 128 + s / 2;
    ChecksumSnoc(0, b, c);
    assert ChecksumFrom(s, [c]) == (turned + c) % 256 by { assert [c][1..] == []; }
    TurnedDigits(s);
  }

  lemma TurnedDigits(s: byte)
    ensures forall i :: 0 <= i < 8 ==> Digit(s % 2 * 128 + s / 2, (i + 7) % 8) == Digit(s, i)
  {
    hide Digit;
    forall i | 0 <= i < 8 ensures Digit(s % 2 * 128 + s / 2, (i + 7) % 8) == Digit(s, i) { TurnedDigit(s, i); }
  }

  lemma TurnedDigit(s: byte, i: nat)
    requires i < 8
    ensures Digit(s % 2 * 128 + s / 2, if i == 0 then 7 else i - 1) == Digit(s, i)
  {
    var low, top: nat := s / 2, s % 2;
    assert Pow2(7) == 128 by { assert Pow2(4) == 16; }
    assert Digit(s, i) == if i == 0 then top else Digit(low, i - 1);
    hide Digit;
    if i == 0 { DigitAbove(low, top, 7); } else { DigitsBelow(low, top, 7, i - 1); }
  }

  lemma ChecksumAt(b: seq<byte>, k: nat, s: byte, t: byte)
    requires k < |b| && t == (s % 2 * 128 + s / 2 + b[k]) % 256
    ensures ChecksumFrom(s, b[k..]) == ChecksumFrom(t, b[k + 1..])
  {
    assert b[k..][1..] == b[k + 1..];
  }

  /** The checksum of "A~1     TXT". */
  lemma ChecksumExample()
    ensures Checksum([0x41, 0x7E, 0x31, 0x20, 0x20, 0x20, 0x20, 0x20, 0x54, 0x58, 0x54]) == 0x9D
  {
    hide ChecksumFrom;
    var b := [0x41, 0x7E, 0x31, 0x20, 0x20, 0x20, 0x20, 0x20, 0x54, 0x58, 0x54];
    ChecksumAt(b, 0, 0x00, 0x41);
    ChecksumAt(b, 1, 0x41, 0x1E);
    ChecksumAt(b, 2, 0x1E, 0x40);
    ChecksumAt(b, 3, 0x40, 0x40);
    ChecksumAt(b, 4, 0x40, 0x40);
    ChecksumAt(b, 5, 0x40, 0x40);
    ChecksumAt(b, 6, 0x40, 0x40);
    ChecksumAt(b, 7, 0x40, 0x40);
    ChecksumAt(b, 8, 0x40, 0x74);
    ChecksumAt(b, 9, 0x74, 0x92);
    ChecksumAt(b, 10, 0x92, 0x9D);
    WholeSummed(b, 0x9D);
  }

  /** And with its first two bytes swapped: their order matters. */
  lemma ChecksumSwapped()
    ensures Checksum([0x7E, 0x41, 0x31, 0x20, 0x20, 0x20, 0x20, 0x20, 0x54, 0x58, 0x54]) == 0x8E
  {
    hide ChecksumFrom;
    var b := [0x7E, 0x41, 0x31, 0x20, 0x20, 0x20, 0x20, 0x20, 0x54, 0x58, 0x54];
    ChecksumAt(b, 0, 0x00, 0x7E);
    ChecksumAt(b, 1, 0x7E, 0x80);
    ChecksumAt(b, 2, 0x80, 0x71);
    ChecksumAt(b, 3, 0x71, 0xD8);
    ChecksumAt(b, 4, 0xD8, 0x8C);
    ChecksumAt(b, 5, 0x8C, 0x66);
    ChecksumAt(b, 6, 0x66, 0x53);
    ChecksumAt(b, 7, 0x53, 0xC9);
    ChecksumAt(b, 8, 0xC9, 0x38);
    ChecksumAt(b, 9, 0x38, 0x74);
    ChecksumAt(b, 10, 0x74, 0x8E);
    WholeSummed(b, 0x8E);
  }

  lemma WholeSummed(b: seq<byte>, s: byte)
    requires ChecksumFrom(0, b[0..]) == ChecksumFrom(s, b[|b|..])
    ensures Checksum(b) == s
  {
    assert b[0..] == b && b[|b|..] == [];
  }

  method LfnChecksum(short11: seq<byte>) returns (s: byte)
    ensures s == Checksum(short11)
  {
    s := 0;
    var i := 0;
    while i < |short11|
      invariant 0 <= i <= |short11|
      invariant ChecksumFrom(s, short11[i..]) == Checksum(short11)
    {
      assert short11[i..][1..] == short11[i + 1..];
      s := (s % 2 * 128 + s / 2 + short11[i]) % 256;
      i := i + 1;
    }
  }

  method FillLast(units: seq<byte>) returns (u: seq<byte>)
    requires |units| % 2 == 0
    ensures u == Filled(units)
  {
    u := units;
    if |u| % 26 != 0 {
      u := u + [0, 0];
      u := u + Repeat(0xFF, (-|u|) % 26);
    }
  }

  method EncodeLongName(name: Name, chk: byte) returns (es: seq<Entry>)
    requires |name| <= MAX_UNITS
    ensures es == LongEntries(name, chk)
  {
    hide *;
    var u := FillLast(Utf16(name));
    AllPartsDown(name, chk, u);
    var n := |u| / 26;
    var i := n;
    es := [];
    while i > 0
      invariant 0 <= i <= n == PartCount(name) && |u| == 26 * n
      invariant es + EntriesDown(name, chk, i) == LongEntries(name, chk)
    {
      DownStep(es, name, chk, i);
      PartIs(name, chk, i, u);
      es := es + [LfnEntry(Ordinal(i, i == n), chk, u[26 * (i - 1)..26 * i])];
      i := i - 1;
    }
    NoneDown(es, name, chk);
  }
}
