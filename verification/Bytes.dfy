/** Bytes, little-endian integers, and files that are written by seek-and-write. */
module Bytes {

  type byte = x: int | 0 <= x < 256

  function Le16(v: nat): (r: seq<byte>)
    requires v < 0x1_0000
    ensures |r| == 2
  {
    [v % 256, v / 256]
  }

  function Le32(v: nat): (r: seq<byte>)
    requires v < 0x1_0000_0000
    ensures |r| == 4
  {
    [v % 256, v / 256 % 256, v / 0x1_0000 % 256, v / 0x100_0000]
  }

  function Get16(b: seq<byte>, off: nat): (v: nat)
    requires off + 2 <= |b|
    ensures v < 0x1_0000
  {
    b[off] as int + 256 * (b[off + 1] as int)
  }

  function Get32(b: seq<byte>, off: nat): (v: nat)
    requires off + 4 <= |b|
    ensures v < 0x1_0000_0000
  {
    b[off] as int + 256 * (b[off + 1] as int) + 0x1_0000 * (b[off + 2] as int)
    + 0x100_0000 * (b[off + 3] as int)
  }

  lemma SliceOfSlice<T>(s: seq<T>, lo: nat, hi: nat, i: nat, j: nat)
    requires lo <= hi <= |s| && i <= j <= hi - lo
    ensures s[lo..hi][i..j] == s[lo + i..lo + j]
  {
    var a, b := s[lo..hi][i..j], s[lo + i..lo + j];
    assert |a| == |b| && forall k :: 0 <= k < |a| ==> a[k] == b[k];
  }

  lemma GetLe16(b: seq<byte>, off: nat, v: nat)
    requires v < 0x1_0000 && off + 2 <= |b|
    requires b[off..off + 2] == Le16(v)
    ensures Get16(b, off) == v
  {
    assert b[off] == b[off..off + 2][0] && b[off + 1] == b[off..off + 2][1];
  }

  lemma GetLe32(b: seq<byte>, off: nat, v: nat)
    requires v < 0x1_0000_0000 && off + 4 <= |b|
    requires b[off..off + 4] == Le32(v)
    ensures Get32(b, off) == v
  {
    var s := b[off..off + 4];
    assert b[off] == s[0] && b[off + 1] == s[1] && b[off + 2] == s[2] && b[off + 3] == s[3];
    Digits(v);
  }

  lemma Digits(v: nat)
    ensures v == v % 256 + 256 * (v / 256 % 256) + 0x1_0000 * (v / 0x1_0000 % 256) + 0x100_0000 * (v / 0x100_0000)
  {
    var a, b := v / 256, v / 0x1_0000;
    assert a / 256 == b && b / 256 == v / 0x100_0000;
    assert v == 256 * a + v % 256 && a == 256 * b + a % 256 && b == 256 * (b / 256) + b % 256;
  }

  function Zeros(n: nat): (r: seq<byte>)
    ensures |r| == n && forall i :: 0 <= i < n ==> r[i] == 0
  {
    seq(n, _ => 0)
  }

  function CeilDiv(a: nat, b: nat): (r: nat)
    requires b > 0
    ensures a <= r * b < a + b
    ensures a > 0 ==> r > 0
  {
    DivMod(a + b - 1, b);
    (a + b - 1) / b
  }

  lemma DivMod(a: nat, b: nat)
    requires b > 0
    ensures a == (a / b) * b + a % b && 0 <= a % b < b && a / b >= 0
  {
  }

  // ---------------------------------------------------------------- file writes

  /** One `seek(off)` followed by writing `data`. */
  datatype Patch = Patch(off: nat, data: seq<byte>)
  {
    function End(): nat { off + |data| }
  }

  predicate InBounds(n: nat, ps: seq<Patch>)
  {
    forall i :: 0 <= i < |ps| ==> ps[i].End() <= n
  }

  function Put(img: seq<byte>, p: Patch): (r: seq<byte>)
    requires p.End() <= |img|
    ensures |r| == |img|
    ensures r[p.off..p.End()] == p.data
    ensures forall j :: 0 <= j < |img| && !(p.off <= j < p.End()) ==> r[j] == img[j]
  {
    img[..p.off] + p.data + img[p.End()..]
  }

  /** The file after all the writes, the last one winning where two overlap. */
  function PutAll(img: seq<byte>, ps: seq<Patch>): (r: seq<byte>)
    requires InBounds(|img|, ps)
    ensures |r| == |img|
    decreases |ps|
  {
    if ps == [] then img
    else Put(PutAll(img, ps[..|ps| - 1]), ps[|ps| - 1])
  }

  /** No write of `ps` reaches the byte range [lo, hi). */
  predicate Clear(ps: seq<Patch>, lo: nat, hi: nat)
  {
    forall i :: 0 <= i < |ps| ==> ps[i].End() <= lo || hi <= ps[i].off
  }

  lemma {:induction false} ClearKeeps(img: seq<byte>, ps: seq<Patch>, lo: nat, hi: nat)
    requires InBounds(|img|, ps) && lo <= hi <= |img|
    requires Clear(ps, lo, hi)
    ensures PutAll(img, ps)[lo..hi] == img[lo..hi]
    decreases |ps|
  {
    if ps != [] {
      ClearKeeps(img, ps[..|ps| - 1], lo, hi);
    }
  }

  lemma {:induction false} PutAllConcat(img: seq<byte>, a: seq<Patch>, b: seq<Patch>)
    requires InBounds(|img|, a) && InBounds(|img|, b) && InBounds(|img|, a + b)
    ensures PutAll(img, a + b) == PutAll(PutAll(img, a), b)
    decreases |b|
  {
    if b == [] {
      assert a + b == a;
    } else {
      var b', last := b[..|b| - 1], b[|b| - 1];
      PutAllConcat(img, a, b');
      assert (a + b)[..|a + b| - 1] == a + b';
      assert (a + b)[|a + b| - 1] == last;
      assert PutAll(img, a + b) == Put(PutAll(img, a + b'), last);
      assert PutAll(PutAll(img, a), b) == Put(PutAll(PutAll(img, a), b'), last);
    }
  }

  /** What a write put down is read back when no later write reaches it. */
  lemma ReadBack(img: seq<byte>, ps: seq<Patch>, i: nat)
    requires InBounds(|img|, ps) && i < |ps|
    requires Clear(ps[i + 1..], ps[i].off, ps[i].End())
    ensures PutAll(img, ps)[ps[i].off..ps[i].End()] == ps[i].data
  {
    assert ps == (ps[..i] + [ps[i]]) + ps[i + 1..];
    assert (ps[..i] + [ps[i]])[..i] == ps[..i];
    PutAllConcat(img, ps[..i] + [ps[i]], ps[i + 1..]);
    var mid := PutAll(img, ps[..i] + [ps[i]]);
    assert mid == Put(PutAll(img, ps[..i]), ps[i]);
    ClearKeeps(mid, ps[i + 1..], ps[i].off, ps[i].End());
  }

  lemma PutAllSnoc(img: seq<byte>, ps: seq<Patch>, q: Patch)
    requires InBounds(|img|, ps) && q.End() <= |img|
    ensures InBounds(|img|, ps + [q])
    ensures PutAll(img, ps + [q]) == Put(PutAll(img, ps), q)
  {
    assert (ps + [q])[..|ps|] == ps;
  }

  // ---------------------------------------------------------------- reading back

  /** The image holds `data` at `off`. */
  predicate Reads(img: seq<byte>, off: nat, data: seq<byte>)
  {
    off + |data| <= |img| && img[off..off + |data|] == data
  }

  lemma PutReads(img: seq<byte>, q: Patch)
    requires q.End() <= |img|
    ensures Reads(Put(img, q), q.off, q.data)
  {
  }

  lemma PutKeepsReads(img: seq<byte>, q: Patch, off: nat, data: seq<byte>)
    requires q.End() <= |img| && Reads(img, off, data) && (off + |data| <= q.off || q.End() <= off)
    ensures Reads(Put(img, q), off, data)
  {
  }

  lemma PutAllKeepsReads(img: seq<byte>, ps: seq<Patch>, off: nat, data: seq<byte>)
    requires InBounds(|img|, ps) && Reads(img, off, data) && Clear(ps, off, off + |data|)
    ensures Reads(PutAll(img, ps), off, data)
  {
    ClearKeeps(img, ps, off, off + |data|);
  }

  /** Part of what is read at `off`. */
  lemma ReadsPart(img: seq<byte>, off: nat, data: seq<byte>, i: nat, j: nat)
    requires Reads(img, off, data) && i <= j <= |data|
    ensures Reads(img, off + i, data[i..j])
  {
    SliceOfSlice(img, off, off + |data|, i, j);
  }

  /** n bytes of a memory from address a on. */
  function Take(mem: nat -> byte, a: nat, n: nat): (b: seq<byte>)
    ensures |b| == n && forall i :: 0 <= i < n ==> b[i] == mem(a + i)
  {
    seq(n, i requires 0 <= i < n => mem(a + i))
  }
}
