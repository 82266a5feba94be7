/** Draw calls made self-contained: attribute arrays copied out as floats, counted from vertex 0. */
module GlDraw {
  import opened Bytes
  import opened Numbers
  import opened Wrappers

  const UNSIGNED_SHORT: nat := 0x1403
  const NORMAL: nat := 1
  const COLOR: nat := 2
  const ARRAYS: nat := 7 // position, normal, colour and four texture coordinates

  function TypeSize(t: nat): (n: nat)
    ensures n in {1, 2, 4}
  {
    if t == 0x1400 || t == 0x1401 then 1 else if t == 0x1402 || t == 0x1403 then 2 else 4
  }

  /** The four bytes of a float, made from one component. How is left open. */
  type Conversion = (seq<byte>, nat, bool) -> Float

  type Float = f: seq<byte> | |f| == 4 witness [0, 0, 0, 0]

  datatype ClientArray = ClientArray(enabled: bool, size: nat, type_: nat, stride: nat, ptr: nat, buffer: nat)

  /** The guest's memory: what it holds, and which ranges can be read. */
  datatype Guest = Guest(at: nat -> byte, readable: (nat, nat) -> bool)

  /**
   * The guest's side of a draw call: its arrays, the contents of its buffer objects, the element buffer, its memory.
   * What lies behind the bytes an array is converted from is arbitrary (`behind`, by distance from their start).
   */
  datatype Client = Client(arrays: seq<ClientArray>, buffers: map<nat, seq<byte>>, elements: nat, guest: Guest,
                           behind: nat -> byte, convert: Conversion)

  predicate ClientOk(c: Client) { |c.arrays| == ARRAYS }

  /** The bytes of one vertex. */
  function Width(a: ClientArray): nat { Times(a.size, TypeSize(a.type_)) }

  function Stride(a: ClientArray): nat { if a.stride != 0 then a.stride else Width(a) }

  /** The bytes of client memory copied for the vertices first .. first + count - 1. */
  function Needed(a: ClientArray, first: nat, count: nat): nat { Times(first + count, Stride(a)) }

  /** How many bytes there are to convert from: the rest of the buffer, or those copied. */
  function Have(c: Client, a: ClientArray, first: nat, count: nat): nat
  {
    if a.buffer == 0 then Needed(a, first, count)
    else if a.buffer in c.buffers && a.ptr <= |c.buffers[a.buffer]| then |c.buffers[a.buffer]| - a.ptr
    else 0
  }

  /** Byte o of the array as the guest holds it, if it does. */
  function GuestByte(c: Client, a: ClientArray, o: nat): Option<byte>
  {
    if a.buffer == 0 then Some(c.guest.at(a.ptr + o))
    else if a.buffer in c.buffers && a.ptr + o < |c.buffers[a.buffer]| then Some(c.buffers[a.buffer][a.ptr + o])
    else None
  }

  /** Byte o of what is converted. */
  function SourceByte(c: Client, a: ClientArray, have: nat, o: nat): byte
  {
    if o < have && GuestByte(c, a, o).Some? then GuestByte(c, a, o).value else c.behind(o)
  }

  predicate Available(c: Client, a: ClientArray, first: nat, count: nat)
  {
    var need := Needed(a, first, count);
    if a.buffer != 0 then a.buffer in c.buffers && a.ptr + need <= |c.buffers[a.buffer]| + Stride(a)
    else c.guest.readable(a.ptr, need)
  }

  /** A buffer serves an array when the last vertex starts in it or at its end, client memory when all can be read. */
  lemma AvailableExactly(c: Client, a: ClientArray, first: nat, count: nat)
    requires count > 0
    ensures var stride := if a.stride == 0 then a.size * TypeSize(a.type_) else a.stride;
            Available(c, a, first, count) <==>
              if a.buffer == 0 then c.guest.readable(a.ptr, (first + count) * stride)
              else a.buffer in c.buffers && a.ptr + (first + (count - 1)) * stride <= |c.buffers[a.buffer]|
  {
    TimesNext(first + (count - 1), Stride(a));
  }

  /** What an array is converted from, or nothing if it cannot be had. */
  function Source(c: Client, a: ClientArray, first: nat, count: nat): Option<nat -> byte>
  {
    if Available(c, a, first, count) then Some(o => SourceByte(c, a, Have(c, a, first, count), o)) else None
  }

  /** Component k of vertex v: at its stride, by its type, normalised where it has to be. */
  function Component(c: Client, i: nat, at: nat -> byte, v: nat, k: nat): Float
    requires ClientOk(c) && i < ARRAYS
  {
    var a := c.arrays[i];
    c.convert(Take(at, ComponentAt(a, v, k), TypeSize(a.type_)), a.type_, i == COLOR || i == NORMAL)
  }

  /** Where it starts. */
  function ComponentAt(a: ClientArray, v: nat, k: nat): nat { Times(v, Stride(a)) + Times(k, TypeSize(a.type_)) }

  /**
   * As OpenGL ES defines it: made from the bytes the guest holds, the vertices a stride apart and the components one
   * behind the other, normalised in the normal and the colour array.
   */
  function GuestComponent(c: Client, i: nat, v: nat, k: nat): Float
    requires ClientOk(c) && i < ARRAYS
  {
    var a := c.arrays[i];
    var n := GlSize(a.type_);
    var apart := if a.stride == 0 then a.size * n else a.stride;
    c.convert(GuestBytes(c, a, v * apart + k * n, n), a.type_, i in {1, 2})
  }

  /** n bytes of an array. */
  function GuestBytes(c: Client, a: ClientArray, at: nat, n: nat): (b: seq<byte>)
    ensures |b| == n && forall j :: 0 <= j < n ==> b[j] == GuestByteOr0(c, a, at + j)
  {
    Take(o => GuestByteOr0(c, a, o), at, n)
  }

  /** The size of a component: of bytes, of shorts, and of fixed and floating-point numbers. */
  function GlSize(t: nat): nat
  {
    match t
    case 0x1400 => 1
    case 0x1401 => 1
    case 0x1402 => 2
    case 0x1403 => 2
    case _ => 4
  }

  function GuestByteOr0(c: Client, a: ClientArray, o: nat): byte
  {
    if GuestByte(c, a, o).Some? then GuestByte(c, a, o).value else 0
  }

  datatype Blob = Blob(enabled: bool, size: nat, off: nat)

  const NO_BLOB := Blob(false, 0, 0)

  function RoundUp(n: nat): (r: nat)
    ensures r % 16 == 0 && n <= r < n + 16
  {
    (n + 15) / 16 * 16
  }

  datatype Outcome = Sent | Dropped | Aborted

  class Request {
    var data: array<byte>
    var used: nat
    var blobs: seq<Blob>
    var nverts: int
    var idxOff: nat
    var idxType: nat
    var idxCount: int

    ghost predicate Valid()
      reads this
    {
      used <= data.Length && |blobs| == ARRAYS
    }

    constructor ()
      ensures Valid() && used == 0 && fresh(data) && data.Length == 0
      ensures forall i :: 0 <= i < ARRAYS ==> blobs[i] == NO_BLOB
    {
      data, used, blobs := new byte[0], 0, seq(ARRAYS, _ => NO_BLOB);
      nverts, idxOff, idxType, idxCount := 0, 0, 0, 0;
    }

    /** Room for at least `cap` bytes, with the bytes in use kept. */
    method Grow(cap: nat)
      requires Valid() && cap > data.Length
      modifies `data
      ensures Valid() && fresh(data) && data.Length == cap && data[..used] == old(data[..used])
    {
      var bigger := new byte[cap](_ => 0);
      for i := 0 to used
        invariant data == old(data) && used <= data.Length && fresh(bigger) && bigger.Length == cap
        invariant forall k :: 0 <= k < i ==> bigger[k] == data[k]
      {
        bigger[i] := data[i];
      }
      data := bigger;
    }

    /**
     * A blob at the next multiple of 16: the bytes given, or zeros. Whatever was pushed before stays where it is
     * and as it is.
     */
    method Push(p: Option<seq<byte>>, len: nat) returns (off: nat)
      requires Valid() && (p.Some? ==> |p.value| == len)
      modifies `data, `used, data
      ensures Valid() && (data == old(data) || fresh(data))
      ensures off % 16 == 0 && old(used) <= off < old(used) + 16 && used == off + len
      ensures data[..old(used)] == old(data[..used])
      ensures data[off..used] == if p.Some? then p.value else Zeros(len)
    {
      off := RoundUp(used);
      var want := if p.Some? then p.value else Zeros(len);
      if off + len > data.Length {
        var twice, fit := data.Length * 2, off + len + 4096;
        Grow(if twice > fit then twice else fit);
      }
      for i := 0 to len
        invariant used == old(used) && off + len <= data.Length && (data == old(data) || fresh(data))
        invariant data[..used] == old(data[..used])
        invariant data[off..off + i] == want[..i]
      {
        data[off + i] := want[i];
        assert data[off..off + i + 1] == data[off..off + i] + [want[i]];
      }
      used := off + len;
      assert want[..len] == want;
    }

    method Store(at: nat, f: Float)
      requires Valid() && at + 4 <= used
      modifies data
      ensures data[..used] == Patched(old(data[..used]), at, f) && data[..at] == old(data[..at])
    {
      hide Patched;
      ghost var before := data[..used];
      data[at], data[at + 1], data[at + 2], data[at + 3] := f[0], f[1], f[2], f[3];
      PatchedIs(before, data[..used], at, f);
      assert data[..at] == data[..used][..at] && before[..at] == old(data[..at]);
    }

    /** The vertices first .. first + count - 1 of one array as floats, or false if its bytes cannot be had. */
    method MarshalArray(c: Client, i: nat, first: nat, count: int) returns (ok: bool)
      requires Valid() && ClientOk(c) && i < ARRAYS
      modifies this, data
      ensures Valid() && (data == old(data) || fresh(data)) && unchanged(`nverts, `idxOff, `idxType, `idxCount)
      ensures used >= old(used) && data[..old(used)] == old(data[..used])
      ensures forall j :: 0 <= j < ARRAYS && j != i ==> blobs[j] == old(blobs[j])
      ensures ok <==> !c.arrays[i].enabled || count <= 0 || Source(c, c.arrays[i], first, count).Some?
      ensures ok ==> Holds(data[..used], blobs[i], c, i, first, count)
      ensures ok && c.arrays[i].enabled && count > 0 ==> old(used) <= blobs[i].off
    {
      hide Source, Component, Converted, RoundUp, Floats, Row;
      var a := c.arrays[i];
      blobs := blobs[i := blobs[i].(enabled := a.enabled)];
      if !a.enabled || count <= 0 { return true; }
      var src := Source(c, a, first, count);
      if src.None? { return false; }
      var off := Push(None, Row(count, a.size) * 4);
      blobs := blobs[i := Blob(true, a.size, off)];
      ConvertAll(c, i, src.value, first, count, off);
      return true;
    }

    method ConvertAll(c: Client, i: nat, src: nat -> byte, first: nat, count: nat, off: nat)
      requires Valid() && ClientOk(c) && i < ARRAYS && off + 4 * Row(count, c.arrays[i].size) <= used
      modifies data
      ensures Valid() && data[..off] == old(data[..off])
      ensures Floats(data[..used], off, Row(count, c.arrays[i].size))
           == Converted(c, i, src, first, Row(count, c.arrays[i].size))
    {
      hide Component, Converted, Floats, Row;
      var size := c.arrays[i].size;
      ghost var total := Row(count, size);
      ghost var want := Converted(c, i, src, first, total);
      NoRows(data[..used], off, want, size);
      for v := 0 to count
        invariant Valid() && data[..off] == old(data[..off])
        invariant Row(v, size) <= total && Floats(data[..used], off, Row(v, size)) == want[..Row(v, size)]
      {
        RowFits(v, count, size);
        ConvertVertex(c, i, src, first, v, off, total);
      }
      assert want[..total] == want;
    }

    /** One vertex, behind those before it. */
    method ConvertVertex(c: Client, i: nat, src: nat -> byte, first: nat, v: nat, off: nat, ghost total: nat)
      requires Valid() && ClientOk(c) && i < ARRAYS && off + 4 * total <= used
      requires Row(v + 1, c.arrays[i].size) <= total && Row(v, c.arrays[i].size) <= total
      requires Floats(data[..used], off, Row(v, c.arrays[i].size))
            == Converted(c, i, src, first, total)[..Row(v, c.arrays[i].size)]
      modifies data
      ensures Valid() && data[..off] == old(data[..off])
      ensures Floats(data[..used], off, Row(v + 1, c.arrays[i].size))
           == Converted(c, i, src, first, total)[..Row(v + 1, c.arrays[i].size)]
    {
      hide Component, Converted, Floats, Row, Patched;
      var size := c.arrays[i].size;
      ghost var want := Converted(c, i, src, first, total);
      var row := Row(v, size);
      RowNext(v, size);
      for k := 0 to size
        modifies data
        invariant Valid() && row + k <= total && data[..off] == old(data[..off])
        invariant Floats(data[..used], off, row + k) == want[..row + k]
      {
        ghost var before := data[..used];
        ConvertedAt(c, i, src, first, total, v, k);
        Store(off + 4 * (row + k), Component(c, i, src, first + v, k));
        FloatsNext(before, off, row + k, want[row + k]);
        assert want[..row + k + 1] == want[..row + k] + [want[row + k]];
      }
    }

    /** All arrays of a draw of `count` vertices from `first` on. */
    method MarshalDraw(c: Client, first: nat, count: int) returns (ok: bool)
      requires Valid() && ClientOk(c)
      modifies this, data
      ensures Valid() && (data == old(data) || fresh(data)) && unchanged(`idxOff, `idxType, `idxCount)
      ensures nverts == count && used >= old(used) && data[..old(used)] == old(data[..used])
      ensures ok ==> AllHold(data[..used], blobs, c, first, count)
      ensures ok <==> !Lacking(c, first, count)
    {
      hide Source, Holds;
      nverts := count;
      for i := 0 to ARRAYS
        invariant Valid() && (data == old(data) || fresh(data)) && unchanged(`idxOff, `idxType, `idxCount)
        invariant nverts == count && used >= old(used) && data[..old(used)] == old(data[..used])
        invariant forall j :: 0 <= j < i ==> Holds(data[..used], blobs[j], c, j, first, count)
      {
        ghost var before, was := data[..used], blobs;
        var fine := MarshalArray(c, i, first, count);
        if !fine { return false; }
        forall j | 0 <= j < i ensures Holds(data[..used], blobs[j], c, j, first, count) {
          assert blobs[j] == was[j];
          HoldsLonger(before, data[..used], was[j], c, j, first, count);
        }
      }
      NothingLacking(data[..used], blobs, c, first, count);
      return true;
    }

    /**
     * An indexed draw: the index list is copied, and vertices 0 up to the largest index are. Dropped if there is
     * nothing to draw or something cannot be read; a negative count asks for more memory than there is.
     */
    method MarshalElements(c: Client, count: int, t: nat, ptr: nat) returns (o: Outcome)
      requires Valid() && ClientOk(c)
      modifies this, data
      ensures Valid() && (data == old(data) || fresh(data))
      ensures used >= old(used) && data[..old(used)] == old(data[..used])
      ensures o.Aborted? <==> count < 0
      ensures o.Aborted? || count == 0 ==> used == old(used)
      ensures o.Sent? ==>
                && count > 0 && IndexBytes(c, count, t, ptr).Some? && idxCount == count && idxType == t
                && idxOff % 16 == 0 && idxOff + IndexSize(t) * count <= used
                && data[idxOff..idxOff + IndexSize(t) * count] == IndexBytes(c, count, t, ptr).value
                && nverts >= 0 && AllHold(data[..used], blobs, c, 0, nverts)
                && forall k :: 0 <= k < count ==> Index(IndexBytes(c, count, t, ptr).value, t, k) < nverts
      ensures count > 0 && IndexBytes(c, count, t, ptr).Some? ==>
                LargestIs(IndexBytes(c, count, t, ptr).value, t, count, nverts - 1)
      ensures o.Dropped? ==> count == 0 || IndexBytes(c, count, t, ptr).None? || (nverts > 0 && Lacking(c, 0, nverts))
      ensures o.Sent? ==> !Lacking(c, 0, nverts)
    {
      hide AllHold, IndexBytes, Index, Source, Lacking;
      if count < 0 { return Aborted; }
      if count == 0 { return Dropped; }
      var idx := IndexBytes(c, count, t, ptr);
      if idx.None? { return Dropped; }
      var largest := LargestIndex(idx.value, t, count);
      idxType := t;
      idxCount := count;
      var off := Push(Some(idx.value), IndexSize(t) * count);
      idxOff := off;
      ghost var end := used;
      var ok := MarshalDraw(c, 0, largest + 1);
      assert data[off..end] == data[..end][off..end];
      return if ok then Sent else Dropped;
    }
  }

  /** Some array the draw needs cannot be had. */
  ghost predicate Lacking(c: Client, first: nat, count: int)
    requires ClientOk(c)
  {
    exists i :: 0 <= i < ARRAYS && c.arrays[i].enabled && count > 0 && Source(c, c.arrays[i], first, count).None?
  }

  lemma NothingLacking(s: seq<byte>, blobs: seq<Blob>, c: Client, first: nat, count: int)
    requires ClientOk(c) && AllHold(s, blobs, c, first, count)
    ensures !Lacking(c, first, count)
  {
    hide Source, Converted, Floats, Row;
    forall i | 0 <= i < ARRAYS && c.arrays[i].enabled && count > 0 ensures Source(c, c.arrays[i], first, count).Some? {
      assert Holds(s, blobs[i], c, i, first, count);
    }
  }

  // ---------------------------------------------------------------- index lists

  function IndexSize(t: nat): nat { if t == UNSIGNED_SHORT then 2 else 1 }

  /** The k-th index of a list of bytes or of little-endian shorts. */
  function Index(idx: seq<byte>, t: nat, k: nat): nat
    requires IndexSize(t) * k + IndexSize(t) <= |idx|
  {
    if t == UNSIGNED_SHORT then Get16(idx, 2 * k) else idx[k]
  }

  /** A byte, or two with the low one first. */
  lemma IndexIs(idx: seq<byte>, k: nat)
    ensures k < |idx| ==> Index(idx, 0x1401, k) == idx[k]
    ensures 2 * k + 1 < |idx| ==> Index(idx, 0x1403, k) == idx[2 * k] as nat + 256 * idx[2 * k + 1] as nat
  {
  }

  /** The bytes of an index list, from the element buffer or the guest, or nothing if they cannot be had. */
  function IndexBytes(c: Client, count: nat, t: nat, ptr: nat): (b: Option<seq<byte>>)
    ensures b.Some? ==> |b.value| == IndexSize(t) * count
  {
    var n := IndexSize(t) * count;
    if c.elements != 0 then
      if c.elements in c.buffers && ptr + n <= |c.buffers[c.elements]|
      then Some(c.buffers[c.elements][ptr..ptr + n]) else None
    else if c.guest.readable(ptr, n) then Some(Take(c.guest.at, ptr, n)) else None
  }

  /** They are those of the element buffer from the offset on if one is bound, else those the guest can be read. */
  lemma IndexBytesAre(c: Client, count: nat, t: nat, ptr: nat, i: nat)
    requires i < IndexSize(t) * count
    ensures var b, n := IndexBytes(c, count, t, ptr), if t == 0x1403 then 2 * count else count;
            if c.elements == 0
            then if c.guest.readable(ptr, n) then b.Some? && b.value[i] == c.guest.at(ptr + i) else b.None?
            else if c.elements in c.buffers && ptr + n <= |c.buffers[c.elements]|
            then b.Some? && b.value[i] == c.buffers[c.elements][ptr + i] else b.None?
  {
  }

  ghost predicate LargestIs(idx: seq<byte>, t: nat, count: nat, m: int)
    requires |idx| == IndexSize(t) * count
  {
    && (exists k :: 0 <= k < count && m == Index(idx, t, k))
    && (forall k :: 0 <= k < count ==> Index(idx, t, k) <= m)
  }

  /** The largest index, -1 for an empty list. */
  method LargestIndex(idx: seq<byte>, t: nat, count: nat) returns (m: int)
    requires |idx| == IndexSize(t) * count
    ensures if count > 0 then m >= 0 && LargestIs(idx, t, count, m) else m == -1
  {
    m := -1;
    ghost var at := 0;
    for i := 0 to count
      invariant if i == 0 then m == -1 else 0 <= at < i && m == Index(idx, t, at)
      invariant forall k :: 0 <= k < i ==> Index(idx, t, k) <= m
    {
      var v := Index(idx, t, i);
      if v > m { m, at := v, i; }
    }
  }

  // ---------------------------------------------------------------- floats in a blob

  function Floats(s: seq<byte>, off: nat, n: nat): (fs: seq<Float>)
    requires off + 4 * n <= |s|
    ensures |fs| == n && forall j :: 0 <= j < n ==> fs[j] == s[off + 4 * j..off + 4 * j + 4]
  {
    seq(n, j requires 0 <= j < n => s[off + 4 * j..off + 4 * j + 4])
  }

  /** A float written into bytes. */
  function Patched(s: seq<byte>, at: nat, f: Float): (s': seq<byte>)
    requires at + 4 <= |s|
    ensures |s'| == |s|
  {
    s[..at] + f + s[at + 4..]
  }

  lemma PatchedIs(s: seq<byte>, s': seq<byte>, at: nat, f: Float)
    requires at + 4 <= |s| == |s'|
    requires s'[at] == f[0] && s'[at + 1] == f[1] && s'[at + 2] == f[2] && s'[at + 3] == f[3]
    requires forall k :: 0 <= k < |s| && !(at <= k < at + 4) ==> s'[k] == s[k]
    ensures s' == Patched(s, at, f) && s'[..at] == s[..at]
  {
  }

  lemma FloatsNext(s: seq<byte>, off: nat, n: nat, f: Float)
    requires off + 4 * n + 4 <= |s|
    ensures Floats(Patched(s, off + 4 * n, f), off, n + 1) == Floats(s, off, n) + [f]
  {
    var s' := Patched(s, off + 4 * n, f);
    assert s'[off + 4 * n..off + 4 * n + 4] == f;
    forall j | 0 <= j < n ensures Floats(s', off, n + 1)[j] == Floats(s, off, n)[j] {
      assert s'[off + 4 * j..off + 4 * j + 4] == s[off + 4 * j..off + 4 * j + 4];
    }
  }

  lemma FloatsLonger(s: seq<byte>, s': seq<byte>, off: nat, n: nat)
    requires off + 4 * n <= |s| <= |s'| && s'[..|s|] == s
    ensures Floats(s', off, n) == Floats(s, off, n)
  {
    forall j | 0 <= j < n ensures Floats(s', off, n)[j] == Floats(s, off, n)[j] {
      SliceOfSlice(s', 0, |s|, off + 4 * j, off + 4 * j + 4);
      assert s'[0..|s|] == s;
    }
  }

  /** Where the components of vertex v start. */
  function Row(v: nat, size: nat): nat { Times(v, size) }

  lemma RowNext(v: nat, size: nat)
    ensures Row(v + 1, size) == Row(v, size) + size
  {
  }

  lemma RowFits(v: nat, count: nat, size: nat)
    requires v < count
    ensures Row(v, size) + size == Row(v + 1, size) <= Row(count, size)
  {
    var rest := count - (v + 1);
    assert count * size == (v + 1) * size + rest * size;
  }

  lemma NoRows(s: seq<byte>, off: nat, want: seq<Float>, size: nat)
    requires off <= |s|
    ensures Row(0, size) == 0 && Floats(s, off, Row(0, size)) == want[..Row(0, size)]
  {
  }

  /** The j-th float: vertex after vertex, component after component. */
  function ConvertedOne(c: Client, i: nat, at: nat -> byte, first: nat, j: nat): Float
    requires ClientOk(c) && i < ARRAYS
  {
    var size := c.arrays[i].size;
    if size == 0 then [0, 0, 0, 0] else Component(c, i, at, first + j / size, j % size)
  }

  function Converted(c: Client, i: nat, at: nat -> byte, first: nat, n: nat): (fs: seq<Float>)
    requires ClientOk(c) && i < ARRAYS
    ensures |fs| == n && forall j :: 0 <= j < n ==> fs[j] == ConvertedOne(c, i, at, first, j)
  {
    seq(n, j requires 0 <= j < n => ConvertedOne(c, i, at, first, j))
  }

  lemma ConvertedAt(c: Client, i: nat, at: nat -> byte, first: nat, n: nat, v: nat, k: nat)
    requires ClientOk(c) && i < ARRAYS && k < c.arrays[i].size && Row(v, c.arrays[i].size) + k < n
    ensures Converted(c, i, at, first, n)[Row(v, c.arrays[i].size) + k] == Component(c, i, at, first + v, k)
  {
    hide Component;
    DivOfProduct(v, c.arrays[i].size, k);
  }

  lemma DivOfProduct(v: nat, n: nat, k: nat)
    requires k < n
    ensures (Row(v, n) + k) / n == v && (Row(v, n) + k) % n == k
  {
    RemainderOf(v * n + k, n, v, k);
  }

  /** The blob of an array holds its converted vertices; an array without vertices has none. */
  ghost predicate Holds(s: seq<byte>, b: Blob, c: Client, i: nat, first: nat, count: int)
    requires ClientOk(c) && i < ARRAYS
  {
    var a := c.arrays[i];
    && b.enabled == a.enabled
    && (a.enabled && count > 0 ==>
          && b.size == a.size && b.off % 16 == 0 && b.off + 4 * Row(count, a.size) <= |s|
          && Source(c, a, first, count).Some?
          && Floats(s, b.off, Row(count, a.size))
             == Converted(c, i, Source(c, a, first, count).value, first, Row(count, a.size)))
  }

  ghost predicate AllHold(s: seq<byte>, blobs: seq<Blob>, c: Client, first: nat, count: int)
    requires ClientOk(c)
  {
    |blobs| == ARRAYS && forall i :: 0 <= i < ARRAYS ==> Holds(s, blobs[i], c, i, first, count)
  }

  lemma HoldsLonger(s: seq<byte>, s': seq<byte>, b: Blob, c: Client, i: nat, first: nat, count: int)
    requires ClientOk(c) && i < ARRAYS && Holds(s, b, c, i, first, count) && |s| <= |s'| && s'[..|s|] == s
    ensures Holds(s', b, c, i, first, count)
  {
    hide Source, Converted, Floats, Row;
    var a := c.arrays[i];
    if a.enabled && count > 0 { FloatsLonger(s, s', b.off, Row(count, a.size)); }
  }

  /**
   * What the host fetches for vertex v of the copied arrays: the component of vertex first + v, converted from what
   * there was to convert from. If that holds the whole vertex, it is the guest's.
   */
  lemma HostFetchesGuestVertex(s: seq<byte>, blobs: seq<Blob>, c: Client, first: nat, count: nat, i: nat, v: nat,
                               k: nat)
    requires ClientOk(c) && AllHold(s, blobs, c, first, count)
    requires i < ARRAYS && c.arrays[i].enabled && v < count && k < c.arrays[i].size
    ensures Source(c, c.arrays[i], first, count).Some? && blobs[i].enabled && blobs[i].size == c.arrays[i].size
    ensures var at := blobs[i].off + 4 * (Row(v, blobs[i].size) + k);
            && at + 4 <= |s|
            && s[at..at + 4] == Component(c, i, Source(c, c.arrays[i], first, count).value, first + v, k)
            && (Inside(c, c.arrays[i], first, count, first + v) ==>
                  s[at..at + 4] == GuestComponent(c, i, first + v, k))
  {
    hide Component, GuestComponent, Available, Converted, Inside, SourceByte;
    var a := c.arrays[i];
    assert Holds(s, blobs[i], c, i, first, count);
    var src := Source(c, a, first, count).value;
    FetchedOne(s, blobs[i], c, i, src, first, count, v, k);
    if Inside(c, a, first, count, first + v) { InsideIsGuests(c, i, first, count, first + v, k); }
  }

  lemma FetchedOne(s: seq<byte>, b: Blob, c: Client, i: nat, src: nat -> byte, first: nat, count: nat, v: nat, k: nat)
    requires ClientOk(c) && i < ARRAYS && v < count && k < c.arrays[i].size && b.size == c.arrays[i].size
    requires b.off + 4 * Row(count, b.size) <= |s|
    requires Floats(s, b.off, Row(count, b.size)) == Converted(c, i, src, first, Row(count, b.size))
    ensures var at := b.off + 4 * (Row(v, b.size) + k);
            at + 4 <= |s| && s[at..at + 4] == Component(c, i, src, first + v, k)
  {
    hide Component, Converted, Row;
    RowFits(v, count, b.size);
    ConvertedAt(c, i, src, first, Row(count, b.size), v, k);
    assert Floats(s, b.off, Row(count, b.size))[Row(v, b.size) + k]
        == s[b.off + 4 * (Row(v, b.size) + k)..b.off + 4 * (Row(v, b.size) + k) + 4];
  }

  // ---------------------------------------------------------------- vertices that are the guest's

  /** All of vertex v is among the bytes there are to convert from. */
  predicate Inside(c: Client, a: ClientArray, first: nat, count: nat, v: nat)
  {
    Times(v, Stride(a)) + Width(a) <= Have(c, a, first, count)
  }

  /** A component lies inside its vertex. */
  lemma ComponentInside(a: ClientArray, v: nat, k: nat)
    requires k < a.size
    ensures ComponentAt(a, v, k) + TypeSize(a.type_) <= Times(v, Stride(a)) + Width(a)
  {
    hide Times, Stride;
    TimesNext(k, TypeSize(a.type_));
    TimesMono(k + 1, a.size, TypeSize(a.type_));
  }

  lemma PlaceIs(a: ClientArray, v: nat, k: nat)
    ensures TypeSize(a.type_) == GlSize(a.type_)
    ensures ComponentAt(a, v, k)
         == v * (if a.stride == 0 then a.size * GlSize(a.type_) else a.stride) + k * GlSize(a.type_)
  {
  }

  lemma InsideIsGuests(c: Client, i: nat, first: nat, count: nat, v: nat, k: nat)
    requires ClientOk(c) && i < ARRAYS && k < c.arrays[i].size && Available(c, c.arrays[i], first, count)
    requires Inside(c, c.arrays[i], first, count, v)
    ensures Component(c, i, Source(c, c.arrays[i], first, count).value, v, k) == GuestComponent(c, i, v, k)
  {
    hide Times, Stride, Available, Needed;
    var a := c.arrays[i];
    ComponentInside(a, v, k);
    var at, n := ComponentAt(a, v, k), TypeSize(a.type_);
    PlaceIs(a, v, k);
    assert Take(Source(c, a, first, count).value, at, n)
        == GuestBytes(c, a, at, n) by {
      forall o: nat | at <= o < at + n
        ensures SourceByte(c, a, Have(c, a, first, count), o) == GuestByteOr0(c, a, o)
      {
      }
    }
  }

  /** The bytes component k of vertex v is made from are the guest's. */
  predicate ComponentIsGuests(c: Client, a: ClientArray, first: nat, count: nat, v: nat, k: nat)
  {
    forall o: nat :: ComponentAt(a, v, k) <= o < ComponentAt(a, v, k) + TypeSize(a.type_) ==>
      Some(SourceByte(c, a, Have(c, a, first, count), o)) == GuestByte(c, a, o)
  }

  /** All vertices asked for are made from the guest's bytes. */
  ghost predicate AllGuests(c: Client, a: ClientArray, first: nat, count: nat)
  {
    forall v: nat, k: nat :: first <= v < first + count && k < a.size ==> ComponentIsGuests(c, a, first, count, v, k)
  }

  /** And they are so whatever lies behind what there is to convert from. */
  ghost predicate AlwaysGuests(c: Client, a: ClientArray, first: nat, count: nat)
  {
    forall behind: nat -> byte :: AllGuests(c.(behind := behind), a, first, count)
  }

  /** The last vertex lies inside: client memory has to be strided by a vertex, a buffer to hold it. */
  predicate LastInside(c: Client, a: ClientArray, first: nat, count: nat)
    requires count > 0
  {
    if a.buffer == 0 then Stride(a) >= Width(a)
    else a.buffer in c.buffers && a.ptr + Times(first + count - 1, Stride(a)) + Width(a) <= |c.buffers[a.buffer]|
  }

  lemma LastInsideExactly(c: Client, a: ClientArray, first: nat, count: nat)
    requires count > 0 && a.size > 0
    ensures LastInside(c, a, first, count) <==> Inside(c, a, first, count, first + count - 1)
  {
    hide Times, Stride;
    TimesNext(first + count - 1, Stride(a));
    assert Width(a) > 0 by { TimesNext(a.size - 1, TypeSize(a.type_)); }
  }

  /**
   * A copied draw shows the guest's vertices, whatever lies behind the copy, if and only if client memory is strided
   * by at least a vertex, or the buffer holds the last vertex.
   */
  lemma GuestsExactly(c: Client, a: ClientArray, first: nat, count: nat)
    requires count > 0 && a.size > 0
    ensures AlwaysGuests(c, a, first, count) <==> LastInside(c, a, first, count)
  {
    hide Inside, Stride, Have, AllGuests, Width, Times;
    LastInsideExactly(c, a, first, count);
    if LastInside(c, a, first, count) {
      forall behind: nat -> byte ensures AllGuests(c.(behind := behind), a, first, count) {
        LastInsideIsGuests(c.(behind := behind), a, first, count);
      }
    } else {
      var behind: nat -> byte := o => Other(GuestByteOr0(c, a, o));
      LastOutsideIsNot(c.(behind := behind), a, first, count);
      assert !AllGuests(c.(behind := behind), a, first, count);
    }
  }

  function Other(b: byte): byte { if b == 0 then 1 else 0 }

  lemma LastInsideIsGuests(c: Client, a: ClientArray, first: nat, count: nat)
    requires count > 0 && a.size > 0 && LastInside(c, a, first, count)
    ensures AllGuests(c, a, first, count)
  {
    hide Times, Stride, ComponentAt, LastInside, Needed;
    LastInsideExactly(c, a, first, count);
    forall v: nat, k: nat | first <= v < first + count && k < a.size
      ensures ComponentIsGuests(c, a, first, count, v, k)
    {
      TimesMono(v, first + count - 1, Stride(a));
      ComponentInside(a, v, k);
    }
  }

  lemma LastOutsideIsNot(c: Client, a: ClientArray, first: nat, count: nat)
    requires count > 0 && a.size > 0 && !LastInside(c, a, first, count)
    requires forall o :: c.behind(o) == Other(GuestByteOr0(c, a, o))
    ensures !AllGuests(c, a, first, count)
  {
    hide Times, Stride, LastInside, Needed;
    LastInsideExactly(c, a, first, count);
    var v, k := first + (count - 1), a.size - 1;
    TimesNext(k, TypeSize(a.type_));
    var j := TypeSize(a.type_) - 1;
    var o := ComponentAt(a, v, k) + j;
    assert Have(c, a, first, count) <= o;
    assert Some(SourceByte(c, a, Have(c, a, first, count), o)) != GuestByte(c, a, o);
    assert !ComponentIsGuests(c, a, first, count, v, k);
  }

  /**
   * One vertex of four floats, a float apart: only its first component is copied, the other three are made from
   * whatever lies behind.
   */
  lemma NarrowStrideExample(c: Client, i: nat, k: nat)
    requires ClientOk(c) && i < ARRAYS && 1 <= k < 4
    requires c.arrays[i] == ClientArray(true, 4, 0x1406, 4, 0x1000, 0) && c.guest.readable(0x1000, 4)
    ensures Source(c, c.arrays[i], 0, 1).Some?
    ensures Take(Source(c, c.arrays[i], 0, 1).value, ComponentAt(c.arrays[i], 0, k), 4) == Take(c.behind, 4 * k, 4)
  {
    hide Times;
    TimesFour(0);
    TimesFour(1);
    TimesFour(k);
  }

  lemma TimesFour(k: nat)
    ensures Times(k, 4) == 4 * k
  {
  }

  // ---------------------------------------------------------------- indexed draws

  /**
   * And for an indexed draw: the k-th vertex the host fetches, by the copied index list from the copied arrays, is
   * the guest's vertex with the guest's k-th index, if that lies inside.
   */
  lemma HostFetchesIndexed(r: Request, c: Client, count: nat, t: nat, ptr: nat, i: nat, k: nat, j: nat)
    requires r.Valid() && ClientOk(c) && IndexBytes(c, count, t, ptr).Some? && k < count
    requires r.idxOff + IndexSize(t) * count <= r.used
    requires r.data[r.idxOff..r.idxOff + IndexSize(t) * count] == IndexBytes(c, count, t, ptr).value
    requires r.nverts >= 0 && AllHold(r.data[..r.used], r.blobs, c, 0, r.nverts)
    requires LargestIs(IndexBytes(c, count, t, ptr).value, t, count, r.nverts - 1)
    requires i < ARRAYS && c.arrays[i].enabled && j < c.arrays[i].size
    ensures IndexSize(t) * k + IndexSize(t) <= IndexSize(t) * count && Source(c, c.arrays[i], 0, r.nverts).Some?
    ensures var v := Index(r.data[r.idxOff..r.idxOff + IndexSize(t) * count], t, k);
            var at := r.blobs[i].off + 4 * (Row(v, r.blobs[i].size) + j);
            && v == Index(IndexBytes(c, count, t, ptr).value, t, k) < r.nverts && at + 4 <= r.used
            && r.data[..r.used][at..at + 4] == Component(c, i, Source(c, c.arrays[i], 0, r.nverts).value, v, j)
            && (Inside(c, c.arrays[i], 0, r.nverts, v) ==> r.data[..r.used][at..at + 4] == GuestComponent(c, i, v, j))
  {
    hide IndexBytes, Source, AllHold, Component, Index, GuestComponent, Inside;
    IndexInside(t, k, count);
    var v := Index(IndexBytes(c, count, t, ptr).value, t, k);
    HostFetchesGuestVertex(r.data[..r.used], r.blobs, c, 0, r.nverts, i, v, j);
  }

  lemma IndexInside(t: nat, k: nat, count: nat)
    requires k < count
    ensures IndexSize(t) * k + IndexSize(t) <= IndexSize(t) * count
  {
  }
}
