/** Deferred GL calls: queued in order, replayed at a query or a swap, some texels re-read at the swap. */
module GlFrame {
  import opened Bytes
  import opened Numbers
  import opened Wrappers

  const GL_ALPHA: nat := 0x1906
  const GL_RGB: nat := 0x1907
  const GL_RGBA: nat := 0x1908
  const GL_LUMINANCE_ALPHA: nat := 0x190a
  const GL_BGRA: nat := 0x80e1
  const UNPACK_ALIGNMENT: nat := 0x0cf5
  const PACKED: set<nat> := {0x8033, 0x8034, 0x8363} // types of two bytes a texel, whatever the format
  const LARGE: nat := 256 * 256

  /**
   * A call of the guest. Attach is a texture becoming a framebuffer's image, GenTextures carries the names the host
   * answers with, Query is any other call whose answer the guest waits for, Command any other call.
   */
  datatype Call =
    | TexImage(target: nat, level: nat, internal: nat, w: nat, h: nat, border: nat, fmt: nat, type_: nat, ptr: nat)
    | TexSubImage(target: nat, level: nat, x: nat, y: nat, w: nat, h: nat, fmt: nat, type_: nat, ptr: nat)
    | PixelStore(what: nat, value: nat)
    | BindTexture(id: nat)
    | Attach(id: nat)
    | DeleteTextures(ids: seq<nat>)
    | GenTextures(ids: seq<nat>)
    | Command(op: nat, payload: seq<byte>)
    | Query(op: nat)
    | SwapBuffers

  /** The distances between rows OpenGL ES has. */
  type Alignment = a: nat | a in {1, 2, 4, 8} witness 4

  predicate CallOk(c: Call) { c.PixelStore? && c.what == UNPACK_ALIGNMENT ==> c.value in {0, 1, 2, 4, 8} }

  /** A call with the texture bound and the alignment set when it was made, and the texels it carries. */
  datatype Req = Req(call: Call, tex: nat, align: Alignment, texels: seq<byte>)

  type Memory = nat -> byte

  /** Surfaces the firmware draws into after handing them over: large, and not alpha strips. */
  predicate Large(c: Call) { c.TexImage? && c.w * c.h >= LARGE && c.fmt != GL_ALPHA }

  function TexelBytes(fmt: nat, type_: nat): (n: nat)
    ensures 1 <= n <= 4
  {
    if type_ in PACKED then 2
    else if fmt == GL_RGB then 3
    else if fmt == GL_RGBA || fmt == GL_BGRA then 4
    else if fmt == GL_LUMINANCE_ALPHA then 2
    else 1
  }

  /** The next multiple of the alignment. */
  function Padded(n: nat, a: Alignment): (r: nat)
    ensures n <= r < n + a
  {
    (n + a - 1) / a * a
  }

  function RowBytes(w: nat, fmt: nat, type_: nat, a: Alignment): nat { Padded(Times(w, TexelBytes(fmt, type_)), a) }

  /** The bytes of h rows of w texels, every row padded. */
  function ImageBytes(w: nat, h: nat, fmt: nat, type_: nat, a: Alignment): nat
  {
    Times(RowBytes(w, fmt, type_, a), h)
  }

  /** The bytes copied for a call, by its fourth and fifth argument: of a sub-image, its y offset and its width. */
  function Copied(c: Call, a: Alignment): nat
  {
    match c
    case TexImage(_, _, _, w, h, _, fmt, type_, _) => ImageBytes(w, h, fmt, type_, a)
    case TexSubImage(_, _, _, y, w, _, fmt, type_, _) => ImageBytes(y, w, fmt, type_, a)
    case _ => 0
  }

  predicate IsImage(c: Call) { c.TexImage? || c.TexSubImage? }

  predicate HasTexels(c: Call, a: Alignment) { IsImage(c) && c.ptr != 0 && Copied(c, a) != 0 }

  /** A sub-image without texels is dropped, pixel storage kept on this side; everything else is forwarded. */
  predicate Forwards(c: Call, a: Alignment)
  {
    !c.PixelStore? && (!c.TexSubImage? || HasTexels(c, a))
  }

  predicate IsQuery(c: Call) { c.Query? || c.GenTextures? }

  function Made(c: Call, bound: nat, a: Alignment, m: Memory): Req
  {
    Req(c, bound, a, if HasTexels(c, a) then Take(m, c.ptr, Copied(c, a)) else [])
  }

  // ---------------------------------------------------------------- what is known of each texture

  /** Textures whose client memory is watched: true for those re-read at the swap. */
  type Sources = map<nat, bool>

  function Ids(ids: seq<nat>): set<nat> { set i | 0 <= i < |ids| :: ids[i] }

  function TrackSources(s: Sources, gpu: set<nat>, r: Req): Sources
  {
    match r.call
    case TexImage(_, level, _, _, _, _, _, _, _) =>
      if r.tex == 0 then s
      else if !HasTexels(r.call, r.align) then s - {r.tex}
      else if level == 0 then s[r.tex := Large(r.call) && r.tex !in gpu]
      else s
    case Attach(id) => if id != 0 && id in s then s[id := false] else s
    case DeleteTextures(ids) => s - Ids(ids)
    case GenTextures(ids) => s - Ids(ids)
    case _ => s
  }

  function TrackGpu(gpu: set<nat>, c: Call): set<nat>
  {
    match c
    case Attach(id) => if id != 0 then gpu + {id} else gpu
    case DeleteTextures(ids) => gpu - Ids(ids)
    case GenTextures(ids) => gpu - Ids(ids)
    case _ => gpu
  }

  /** A queued request as the swap leaves it. */
  function Refreshed(r: Req, s: Sources, gpu: set<nat>, m: Memory): Req
  {
    if r.call.TexImage? && r.call.ptr != 0 && r.texels != [] && r.tex in s && s[r.tex] && r.tex !in gpu
    then r.(texels := Take(m, r.call.ptr, |r.texels|))
    else r
  }

  function RefreshedAll(q: seq<Req>, s: Sources, gpu: set<nat>, m: Memory): (q': seq<Req>)
    ensures |q'| == |q| && forall i :: 0 <= i < |q| ==> q'[i] == Refreshed(q[i], s, gpu, m)
  {
    seq(|q|, i requires 0 <= i < |q| => Refreshed(q[i], s, gpu, m))
  }

  // ---------------------------------------------------------------- which textures are watched

  predicate Carries(r: Req) { HasTexels(r.call, r.align) }

  /** An upload that says what is known of its texture: of level 0, or of any level without texels. */
  predicate Uploads(r: Req, id: nat) { r.call.TexImage? && r.tex == id && (r.call.level == 0 || !Carries(r)) }

  predicate Deletes(r: Req, id: nat) { r.call.DeleteTextures? && id in r.call.ids }

  /** The name is given out anew. */
  predicate Names(r: Req, id: nat) { r.call.GenTextures? && id in r.call.ids }

  predicate Attaches(r: Req, id: nat) { r.call == Attach(id) }

  predicate Settles(r: Req, id: nat)
  {
    Uploads(r, id) || Deletes(r, id) || Attaches(r, id) || Names(r, id)
  }

  /** Where the texture was settled last. */
  function Latest(f: seq<Req>, id: nat): (k: Option<nat>)
    ensures k.Some? ==> k.value < |f| && Settles(f[k.value], id)
    ensures forall j :: (if k.Some? then k.value + 1 else 0) <= j < |f| ==> !Settles(f[j], id)
    decreases |f|
  {
    if f == [] then None
    else if Settles(f[|f| - 1], id) then Some(|f| - 1)
    else Latest(f[..|f| - 1], id)
  }

  /** Attached, and neither deleted nor given out anew since: the GPU's own. */
  predicate Owned(f: seq<Req>, id: nat)
    decreases |f|
  {
    f != [] && id != 0 &&
    var r := f[|f| - 1];
    Attaches(r, id) || (!Deletes(r, id) && !Names(r, id) && Owned(f[..|f| - 1], id))
  }

  /** Settled last by a large level 0 upload, and not the GPU's own then. */
  predicate Watched(f: seq<Req>, id: nat)
  {
    var k := Latest(f, id);
    && id != 0 && k.Some?
    && var r := f[k.value];
       r.call.TexImage? && r.call.level == 0 && Carries(r) && Large(r.call) && !Owned(f[..k.value], id)
  }

  /** What is known is what the calls so far say. */
  ghost predicate Known(f: seq<Req>, s: Sources, gpu: set<nat>)
  {
    && (forall id :: id in gpu <==> Owned(f, id))
    && (forall id :: id in s && s[id] <==> Watched(f, id))
    && (forall id :: id in s && s[id] ==> id !in gpu)
  }

  lemma KnownAtFirst()
    ensures Known([], map[], {})
  {
  }

  lemma KnownNext(f: seq<Req>, s: Sources, gpu: set<nat>, r: Req)
    requires Known(f, s, gpu)
    ensures Known(f + [r], TrackSources(s, gpu, r), TrackGpu(gpu, r.call))
  {
    var f', s', gpu' := f + [r], TrackSources(s, gpu, r), TrackGpu(gpu, r.call);
    assert f'[..|f|] == f;
    forall id
      ensures id in gpu' <==> Owned(f', id)
      ensures id in s' && s'[id] <==> Watched(f', id)
      ensures id in s' && s'[id] ==> id !in gpu'
    {
      KnownOfOne(f, s, gpu, r, id);
    }
  }

  lemma KnownOfOne(f: seq<Req>, s: Sources, gpu: set<nat>, r: Req, id: nat)
    requires id in gpu <==> Owned(f, id)
    requires id in s && s[id] <==> Watched(f, id)
    requires id in s && s[id] ==> id !in gpu
    ensures var f', s', gpu' := f + [r], TrackSources(s, gpu, r), TrackGpu(gpu, r.call);
            && (id in gpu' <==> Owned(f', id))
            && (id in s' && s'[id] <==> Watched(f', id))
            && (id in s' && s'[id] ==> id !in gpu')
  {
    hide HasTexels, Large, Watched, Owned;
    OwnedNext(f, r, id);
    WatchedNext(f, r, id);
  }

  lemma OwnedNext(f: seq<Req>, r: Req, id: nat)
    ensures id == 0 ==> !Owned(f, id)
    ensures Owned(f + [r], id) == (id != 0 && (Attaches(r, id) || (!Deletes(r, id) && !Names(r, id) && Owned(f, id))))
  {
    assert (f + [r])[..|f|] == f;
  }

  /** A call that settles the texture says by itself whether it is watched; any other changes nothing. */
  lemma WatchedNext(f: seq<Req>, r: Req, id: nat)
    ensures Watched(f + [r], id)
         == if Settles(r, id)
            then id != 0 && r.call.TexImage? && r.call.level == 0 && Carries(r) && Large(r.call) && !Owned(f, id)
            else Watched(f, id)
    ensures id == 0 ==> !Watched(f, id)
  {
    hide HasTexels, Large, Owned;
    var f' := f + [r];
    assert f'[..|f|] == f;
    assert Latest(f', id) == if Settles(r, id) then Some(|f|) else Latest(f, id);
    if Latest(f, id).Some? { assert f'[..Latest(f, id).value] == f[..Latest(f, id).value]; }
  }

  // ---------------------------------------------------------------- which texels are replayed

  /** A level 0 upload from client memory that stays the last such upload of its texture, which is not deleted. */
  predicate LastUpload(q: seq<Req>, i: nat)
  {
    && i < |q| && q[i].call.TexImage? && q[i].call.level == 0 && Carries(q[i]) && q[i].tex != 0
    && |q[i].texels| == Copied(q[i].call, q[i].align)
    && forall j :: i < j < |q| ==> !Uploads(q[j], q[i].tex) && !Deletes(q[j], q[i].tex)
  }

  /** What is known of the texture of a last upload is what the upload itself says. */
  ghost predicate Tracked(q: seq<Req>, s: Sources, gpu: set<nat>)
  {
    forall i: nat :: LastUpload(q, i) ==> q[i].tex in s && s[q[i].tex] == (Large(q[i].call) && q[i].tex !in gpu)
  }

  lemma TrackedNext(q: seq<Req>, s: Sources, gpu: set<nat>, r: Req)
    requires Tracked(q, s, gpu) && !r.call.GenTextures?
    ensures Tracked(q + [r], TrackSources(s, gpu, r), TrackGpu(gpu, r.call))
  {
    hide HasTexels, Large, Copied;
    var q', s', gpu' := q + [r], TrackSources(s, gpu, r), TrackGpu(gpu, r.call);
    forall i: nat | LastUpload(q', i)
      ensures q'[i].tex in s' && s'[q'[i].tex] == (Large(q'[i].call) && q'[i].tex !in gpu')
    {
      if i < |q| {
        assert !Uploads(q'[|q|], q[i].tex) && !Deletes(q'[|q|], q[i].tex);
        assert forall j :: i < j < |q| ==> q'[j] == q[j];
        assert LastUpload(q, i);
      }
    }
  }

  /**
   * At a swap, the last upload of each texture is replayed with the texels of the swap if it is large and the
   * texture is not the GPU's own, and with those of the call otherwise.
   */
  lemma LastUploadReplays(q: seq<Req>, i: nat, s: Sources, gpu: set<nat>, m: Memory)
    requires Tracked(q, s, gpu) && LastUpload(q, i)
    ensures RefreshedAll(q, s, gpu, m)[i].texels
         == if Large(q[i].call) && q[i].tex !in gpu then Take(m, q[i].call.ptr, |q[i].texels|) else q[i].texels
  {
  }

  /**
   * When a frame uploads each texture at most once at level 0, never drops its texels and does not delete it
   * afterwards, all its level 0 uploads are last uploads, whatever else it does with higher levels or framebuffers.
   */
  lemma OncePerFrame(q: seq<Req>, i: nat)
    requires forall a, b, id :: 0 <= a < b < |q| && Uploads(q[a], id) ==> !Uploads(q[b], id) && !Deletes(q[b], id)
    requires i < |q| && q[i].call.TexImage? && q[i].call.level == 0 && Carries(q[i]) && q[i].tex != 0
    requires |q[i].texels| == Copied(q[i].call, q[i].align)
    ensures LastUpload(q, i)
  {
    assert Uploads(q[i], q[i].tex);
  }

  // ---------------------------------------------------------------- order

  /** The same call, whatever texels a texture image carries. */
  predicate SameCall(a: Req, b: Req)
  {
    if a.call.TexImage? then a == b.(texels := a.texels) && |a.texels| == |b.texels| else a == b
  }

  predicate SameCalls(a: seq<Req>, b: seq<Req>)
  {
    |a| == |b| && forall i :: 0 <= i < |a| ==> SameCall(a[i], b[i])
  }

  lemma RefreshedSame(q: seq<Req>, s: Sources, gpu: set<nat>, m: Memory)
    ensures SameCalls(RefreshedAll(q, s, gpu, m), q)
  {
  }

  /** Guest memory that has not changed since the calls were made. */
  predicate Unchanged(q: seq<Req>, m: Memory)
  {
    forall i :: 0 <= i < |q| && q[i].call.TexImage? ==> q[i].texels == Take(m, q[i].call.ptr, |q[i].texels|)
  }

  /** Then the swap replays exactly the calls that were made. */
  lemma UnchangedReplaysExactly(q: seq<Req>, s: Sources, gpu: set<nat>, m: Memory)
    requires Unchanged(q, m)
    ensures RefreshedAll(q, s, gpu, m) == q
  {
    forall i | 0 <= i < |q| ensures RefreshedAll(q, s, gpu, m)[i] == q[i] {
      assert q[i].call.TexImage? ==> q[i].texels == Take(m, q[i].call.ptr, |q[i].texels|);
    }
  }

  class Server {
    var bound: nat
    var alignment: Alignment
    var sources: Sources
    var gpu: set<nat>
    var queue: seq<Req>
    var executed: seq<Req>
    var memory: Memory            // the guest's, as it is now
    ghost var forwarded: seq<Req> // every call that reached the queue or the host, when it was made

    /** Nothing is lost, repeated or reordered, and the queue holds the calls as they were made. */
    ghost predicate Valid()
      reads this
    {
      && SameCalls(executed + queue, forwarded) && |executed| <= |forwarded| && queue == forwarded[|executed|..]
      && Tracked(queue, sources, gpu) && Known(forwarded, sources, gpu)
    }

    constructor (m: Memory)
      ensures Valid() && executed == [] && forwarded == [] && memory == m && bound == 0 && alignment == 4
    {
      bound, alignment, sources, gpu, queue, executed, memory := 0, 4, map[], {}, [], [], m;
      forwarded := [];
      new;
      KnownAtFirst();
    }

    /** The guest runs and changes its memory. */
    method GuestRuns(m: Memory)
      requires Valid()
      modifies `memory
      ensures Valid() && memory == m
    {
      memory := m;
    }

    /** Execute everything that is queued, in order. */
    method FrameFlush()
      modifies `queue, `executed
      ensures queue == [] && executed == old(executed) + old(queue)
    {
      while queue != []
        invariant executed + queue == old(executed) + old(queue)
      {
        var e := queue[0];
        queue := queue[1..];
        executed := executed + [e];
      }
    }

    /** Bring the texels of watched textures up to date. */
    method SyncLargeTextures()
      modifies `queue
      ensures queue == RefreshedAll(old(queue), sources, gpu, memory)
    {
      var i := 0;
      while i < |queue|
        invariant 0 <= i <= |queue| == |old(queue)|
        invariant forall k :: 0 <= k < i ==> queue[k] == Refreshed(old(queue)[k], sources, gpu, memory)
        invariant forall k :: i <= k < |queue| ==> queue[k] == old(queue)[k]
      {
        var e := queue[i];
        if e.call.TexImage? && e.call.ptr != 0 && e.texels != [] {
          if e.tex in sources && sources[e.tex] && e.tex !in gpu {
            queue := queue[i := e.(texels := Take(memory, e.call.ptr, |e.texels|))];
          }
        }
        i := i + 1;
      }
    }

    /** One intercepted call. */
    method Dispatch(c: Call)
      requires Valid() && CallOk(c)
      modifies `bound, `alignment, `sources, `gpu, `queue, `executed, `forwarded
      ensures Valid()
      ensures bound == if c.BindTexture? then c.id else old(bound)
      ensures alignment == if c.PixelStore? && c.what == 0x0cf5 then (if c.value == 0 then 4 else c.value)
                           else old(alignment)
      ensures forwarded == old(forwarded) + if Forwards(c, alignment) then [Made(c, bound, alignment, memory)] else []
      ensures c.Query? || c.GenTextures? ==>
                queue == [] && executed == old(executed) + old(queue) + [Made(c, bound, alignment, memory)]
      ensures c.SwapBuffers? ==>
                && queue == []
                && executed == old(executed) + RefreshedAll(old(queue), old(sources), old(gpu), memory)
                               + [Made(c, bound, alignment, memory)]
      ensures !c.Query? && !c.GenTextures? && !c.SwapBuffers? ==> executed == old(executed)
      ensures c.PixelStore? ==> forwarded == old(forwarded)
      ensures !c.PixelStore? && !c.TexSubImage? ==> |forwarded| == |old(forwarded)| + 1
    {
      hide Tracked, Known, HasTexels, Large, Refreshed, TrackSources, TrackGpu, Copied;
      alignment := NewAlignment(c);
      if !Forwards(c, alignment) { return; }
      bound := NewBound(c);
      var r := Made(c, bound, alignment, memory);
      ghost var sent := forwarded + [r];
      KnownNext(forwarded, sources, gpu, r);
      if c.SwapBuffers? {
        NothingTracked(sources, gpu, r);
        SyncLargeTextures();
        RefreshedSame(old(queue), sources, gpu, memory);
        FlushKeeps(old(executed), old(queue), queue, forwarded, r);
        FrameFlush();
        executed := executed + [r];
        EmptyIsTracked(sources, gpu);
      } else if IsQuery(c) {
        FlushKeeps(old(executed), old(queue), queue, forwarded, r);
        FrameFlush();
        executed := executed + [r];
        if c.GenTextures? {
          NamesForgotten(sources, gpu, r);
          sources, gpu := sources - Ids(c.ids), gpu - Ids(c.ids);
        } else {
          NothingTracked(sources, gpu, r);
        }
        EmptyIsTracked(sources, gpu);
      } else {
        TrackedNext(queue, sources, gpu, r);
        QueueKeeps(executed, queue, forwarded, r);
        sources, gpu := TrackSources(sources, gpu, r), TrackGpu(gpu, c);
        queue := queue + [r];
      }
      forwarded := sent;
    }

    function NewBound(c: Call): nat
      reads this`bound
    {
      if c.BindTexture? then c.id else bound
    }

    function NewAlignment(c: Call): Alignment
      requires CallOk(c)
      reads this`alignment
    {
      if c.PixelStore? && c.what == UNPACK_ALIGNMENT then (if c.value != 0 then c.value else 4) else alignment
    }
  }

  lemma NothingTracked(s: Sources, gpu: set<nat>, r: Req)
    requires r.call.SwapBuffers? || r.call.Query?
    ensures TrackSources(s, gpu, r) == s && TrackGpu(gpu, r.call) == gpu
  {
  }

  lemma NamesForgotten(s: Sources, gpu: set<nat>, r: Req)
    requires r.call.GenTextures?
    ensures TrackSources(s, gpu, r) == s - Ids(r.call.ids) && TrackGpu(gpu, r.call) == gpu - Ids(r.call.ids)
  {
  }

  lemma EmptyIsTracked(s: Sources, gpu: set<nat>)
    ensures Tracked([], s, gpu)
  {
  }

  lemma FlushKeeps(executed: seq<Req>, q: seq<Req>, q': seq<Req>, forwarded: seq<Req>, r: Req)
    requires SameCalls(executed + q, forwarded) && |executed| <= |forwarded| && q == forwarded[|executed|..]
    requires SameCalls(q', q)
    ensures SameCalls(executed + q' + [r], forwarded + [r]) && executed + q' + [r] + [] == executed + q' + [r]
    ensures |executed + q' + [r]| == |forwarded + [r]|
  {
    var a, b := executed + q' + [r], forwarded + [r];
    forall i | 0 <= i < |a| ensures SameCall(a[i], b[i]) {
      if i < |executed| { assert (executed + q)[i] == executed[i]; }
      else if i < |executed| + |q| { assert q'[i - |executed|] == a[i] && q[i - |executed|] == forwarded[i]; }
    }
  }

  lemma QueueKeeps(executed: seq<Req>, q: seq<Req>, forwarded: seq<Req>, r: Req)
    requires SameCalls(executed + q, forwarded) && |executed| <= |forwarded| && q == forwarded[|executed|..]
    ensures SameCalls(executed + (q + [r]), forwarded + [r]) && q + [r] == (forwarded + [r])[|executed|..]
  {
    assert executed + (q + [r]) == executed + q + [r];
  }

  // ---------------------------------------------------------------- uploads to any level

  /**
   * A queued texture image of any level is re-read at the swap exactly when the call that settled its texture
   * last, in this frame or before, was a large level 0 upload, and the texture was not the GPU's own then.
   */
  lemma RereadExactly(t: Server, i: nat)
    requires t.Valid() && i < |t.queue|
    ensures var r := t.queue[i];
            RefreshedAll(t.queue, t.sources, t.gpu, t.memory)[i]
            == if r.call.TexImage? && r.call.ptr != 0 && r.texels != [] && Watched(t.forwarded, r.tex)
               then r.(texels := Take(t.memory, r.call.ptr, |r.texels|)) else r
  {
    hide Tracked, Watched, Owned;
  }

  const BASE := TexImage(0x0de1, 0, GL_RGBA, 256, 256, 0, GL_RGBA, 0x1401, 0x1000)
  const SMALL := TexImage(0x0de1, 1, GL_RGBA, 128, 128, 0, GL_RGBA, 0x1401, 0x2000)

  lemma BaseSettles(m: Memory)
    ensures Watched([Made(BindTexture(7), 7, 4, m), Made(BASE, 7, 4, m), Made(SMALL, 7, 4, m)], 7)
  {
    hide Take;
    var a, b, c := Made(BindTexture(7), 7, 4, m), Made(BASE, 7, 4, m), Made(SMALL, 7, 4, m);
    assert [a, b, c][..2] == [a, b] && [a, b, c][..1] == [a] && [a][..0] == [];
    assert Latest([a, b, c], 7) == Latest([a, b], 7) == Some(1);
    assert !Owned([a], 7);
  }

  /** So it happens that a small upload to level 1 is replayed with what the guest wrote after the call. */
  method HigherLevelRun(m: Memory, m': Memory) returns (t: Server)
    ensures |t.executed| == 4 && t.executed[2] == Made(SMALL, 7, 4, m')
  {
    hide Tracked, Known, SameCalls, Take, Watched, TrackSources, TrackGpu, Made, HasTexels;
    AllForwarded();
    t := new Server(m);
    t.Dispatch(BindTexture(7));
    t.Dispatch(BASE);
    t.Dispatch(SMALL);
    ghost var q := [Made(BindTexture(7), 7, 4, m), Made(BASE, 7, 4, m), Made(SMALL, 7, 4, m)];
    assert t.forwarded == q && t.queue == q;
    BaseSettles(m);
    t.GuestRuns(m');
    RereadExactly(t, 2);
    SmallReread(m, m');
    t.Dispatch(SwapBuffers);
  }

  lemma SmallReread(m: Memory, m': Memory)
    ensures var r := Made(SMALL, 7, 4, m);
            && r.call == SMALL && r.tex == 7 && r.texels != []
            && r.(texels := Take(m', 0x2000, |r.texels|)) == Made(SMALL, 7, 4, m')
  {
  }

  lemma AllForwarded()
    ensures Forwards(BASE, 4) && Forwards(SMALL, 4) && Forwards(ALPHA, 4)
  {
  }

  lemma NamedAnewSettles(m: Memory)
    ensures Watched([Made(Attach(7), 0, 4, m), Made(GenTextures([7]), 0, 4, m), Made(BindTexture(7), 7, 4, m),
                     Made(BASE, 7, 4, m)], 7)
  {
    hide Take;
    var a, b := Made(Attach(7), 0, 4, m), Made(GenTextures([7]), 0, 4, m);
    var c, d := Made(BindTexture(7), 7, 4, m), Made(BASE, 7, 4, m);
    assert [a, b, c, d][..3] == [a, b, c] && [a, b, c][..2] == [a, b];
    assert Latest([a, b, c, d], 7) == Some(3);
    assert Names(b, 7) && !Owned([a, b], 7) && !Owned([a, b, c], 7);
  }

  /** A name given out anew is no longer the GPU's: its next large upload is re-read. */
  method NamedAnewRun(m: Memory, m': Memory) returns (t: Server)
    ensures |t.executed| == 5 && t.executed[3] == Made(BASE, 7, 4, m')
  {
    hide Tracked, Known, SameCalls, Take, Watched, TrackSources, TrackGpu, Made, HasTexels;
    AllForwarded();
    t := new Server(m);
    t.Dispatch(Attach(7));
    t.Dispatch(GenTextures([7]));
    t.Dispatch(BindTexture(7));
    t.Dispatch(BASE);
    ghost var a, b := Made(Attach(7), 0, 4, m), Made(GenTextures([7]), 0, 4, m);
    ghost var c, d := Made(BindTexture(7), 7, 4, m), Made(BASE, 7, 4, m);
    assert t.forwarded == [a, b, c, d] && t.queue == [c, d];
    NamedAnewSettles(m);
    t.GuestRuns(m');
    RereadExactly(t, 1);
    BaseReread(m, m');
    t.Dispatch(SwapBuffers);
  }

  lemma BaseReread(m: Memory, m': Memory)
    ensures var r := Made(BASE, 7, 4, m);
            && r.call == BASE && r.tex == 7 && r.texels != []
            && r.(texels := Take(m', 0x1000, |r.texels|)) == Made(BASE, 7, 4, m')
  {
  }

  // ---------------------------------------------------------------- alpha and small images

  /**
   * On the calls' own terms: a last level 0 upload of GL_ALPHA, or of fewer than 65536 texels, is replayed with the
   * texels of the call, whatever memory holds at the swap; one of at least as many texels in another format, into a
   * texture not attached since its name was last given out or deleted, with those of the swap.
   */
  lemma ReplayedTexels(t: Server, i: nat)
    requires t.Valid() && LastUpload(t.queue, i)
    ensures var r := t.queue[i];
            var texels := RefreshedAll(t.queue, t.sources, t.gpu, t.memory)[i].texels;
            && (r.call.fmt == 0x1906 || r.call.w * r.call.h < 65536 ==> texels == r.texels)
            && (r.call.fmt != 0x1906 && r.call.w * r.call.h >= 65536 && !Owned(t.forwarded, r.tex) ==>
                  texels == Take(t.memory, r.call.ptr, |r.texels|))
  {
    hide Owned, LastUpload;
    LastUploadReplays(t.queue, i, t.sources, t.gpu, t.memory);
    LastIsImage(t.queue, i);
  }

  lemma LastIsImage(q: seq<Req>, i: nat)
    requires LastUpload(q, i)
    ensures q[i].call.TexImage? && |q[i].texels| == Copied(q[i].call, q[i].align)
  {
  }

  const ALPHA := TexImage(0x0de1, 0, GL_ALPHA, 256, 256, 0, GL_ALPHA, 0x1401, 0x1000)

  lemma AlphaSettles(m: Memory)
    ensures !Watched([Made(BindTexture(7), 7, 4, m), Made(ALPHA, 7, 4, m)], 7)
  {
    hide Take;
    var a, b := Made(BindTexture(7), 7, 4, m), Made(ALPHA, 7, 4, m);
    assert [a, b][..1] == [a];
    assert Settles(b, 7) && Latest([a, b], 7) == Some(1);
  }

  /** An alpha image of 256 x 256 texels is replayed as it was when the call was made. */
  method AlphaRun(m: Memory, m': Memory) returns (t: Server)
    ensures |t.executed| == 3 && t.executed[1] == Made(ALPHA, 7, 4, m)
  {
    hide Tracked, Known, SameCalls, Take, Watched, TrackSources, TrackGpu, Made, HasTexels;
    AllForwarded();
    t := new Server(m);
    t.Dispatch(BindTexture(7));
    t.Dispatch(ALPHA);
    ghost var q := [Made(BindTexture(7), 7, 4, m), Made(ALPHA, 7, 4, m)];
    assert t.forwarded == q && t.queue == q;
    AlphaSettles(m);
    AlphaMade(m);
    t.GuestRuns(m');
    RereadExactly(t, 1);
    t.Dispatch(SwapBuffers);
  }

  lemma AlphaMade(m: Memory)
    ensures Made(ALPHA, 7, 4, m).tex == 7 && Made(ALPHA, 7, 4, m).call == ALPHA
  {
  }

  // ---------------------------------------------------------------- which bytes of an image are copied

  /** The bytes of a texel: by the packed types, else by the format. */
  lemma TexelSizes()
    ensures forall f :: TexelBytes(f, 0x8033) == TexelBytes(f, 0x8034) == TexelBytes(f, 0x8363) == 2
    ensures TexelBytes(0x1907, 0x1401) == 3 && TexelBytes(0x1908, 0x1401) == TexelBytes(0x80e1, 0x1401) == 4
    ensures TexelBytes(0x190a, 0x1401) == 2 && TexelBytes(0x1906, 0x1401) == TexelBytes(0x1909, 0x1401) == 1
  {
  }

  lemma PaddedMultiple(n: nat, a: Alignment)
    ensures Padded(n, a) % a == 0
  {
    RemainderOf((n + a - 1) / a * a, a, (n + a - 1) / a, 0);
  }

  /** Rows are padded to the next multiple of the alignment, and an image has as many of them as texels in height. */
  lemma RowsPadded(n: nat, a: Alignment, c: Call)
    ensures Padded(n, a) % a == 0 && n <= Padded(n, a) < n + a
    ensures c.TexImage? ==> Copied(c, a) == c.h * Padded(c.w * TexelBytes(c.fmt, c.type_), a)
    ensures c.TexSubImage? ==> Copied(c, a) == c.w * Padded(c.y * TexelBytes(c.fmt, c.type_), a)
  {
    hide Padded;
    PaddedMultiple(n, a);
    if c.TexImage? { TimesSwapped(RowBytes(c.w, c.fmt, c.type_, a), c.h); }
    if c.TexSubImage? { TimesSwapped(RowBytes(c.y, c.fmt, c.type_, a), c.w); }
  }

  /** Where OpenGL ES has the b-th byte of the texel in column i of row j of an image w texels wide. */
  function TexelAt(w: nat, fmt: nat, type_: nat, a: Alignment, i: nat, j: nat, b: nat): nat
  {
    Times(j, RowBytes(w, fmt, type_, a)) + Times(i, TexelBytes(fmt, type_)) + b
  }

  /** Every byte of the image a call describes is among those copied for it. */
  ghost predicate Whole(c: Call, a: Alignment)
    requires IsImage(c)
  {
    forall i: nat, j: nat, b: nat :: i < c.w && j < c.h && b < TexelBytes(c.fmt, c.type_) ==>
      TexelAt(c.w, c.fmt, c.type_, a, i, j, b) < Copied(c, a)
  }

  /** How far the image a call describes reaches; its last row is not padded. */
  function Extent(c: Call, a: Alignment): nat
    requires IsImage(c) && c.h > 0
  {
    Times(c.h - 1, RowBytes(c.w, c.fmt, c.type_, a)) + Times(c.w, TexelBytes(c.fmt, c.type_))
  }

  lemma WholeExactly(c: Call, a: Alignment)
    requires IsImage(c) && c.w > 0 && c.h > 0
    ensures Whole(c, a) <==> Extent(c, a) <= Copied(c, a)
  {
    hide TexelBytes, Copied, RowBytes, Times;
    var n := TexelBytes(c.fmt, c.type_);
    TimesNext(c.w - 1, n);
    if Whole(c, a) {
      assert TexelAt(c.w, c.fmt, c.type_, a, c.w - 1, c.h - 1, n - 1) == Extent(c, a) - 1;
    }
    if Extent(c, a) <= Copied(c, a) {
      forall i: nat, j: nat, b: nat | i < c.w && j < c.h && b < n
        ensures TexelAt(c.w, c.fmt, c.type_, a, i, j, b) < Copied(c, a)
      {
        TimesMono(j, c.h - 1, RowBytes(c.w, c.fmt, c.type_, a));
        TimesMono(i, c.w - 1, n);
      }
    }
  }

  /** An image is copied whole. */
  lemma ImageWhole(c: Call, a: Alignment)
    requires c.TexImage?
    ensures Whole(c, a)
  {
    hide TexelBytes, Times, Padded;
    if c.w > 0 && c.h > 0 {
      var row := RowBytes(c.w, c.fmt, c.type_, a);
      TimesNext(c.h - 1, row);
      TimesSwapped(c.h, row);
      WholeExactly(c, a);
    }
  }

  /** A sub-image is dropped exactly at the y offset 0, whatever its size. */
  lemma SubImageDroppedExactly(c: Call, a: Alignment)
    requires c.TexSubImage? && c.w > 0 && c.h > 0 && c.ptr != 0
    ensures !Forwards(c, a) <==> c.y == 0
  {
    hide TexelBytes, Times;
    var n := TexelBytes(c.fmt, c.type_);
    TimesZero(c.y, n);
    assert RowBytes(c.y, c.fmt, c.type_, a) == 0 <==> c.y == 0 by { NothingPadded(a); }
    TimesZero(RowBytes(c.y, c.fmt, c.type_, a), c.w);
  }

  lemma NothingPadded(a: Alignment)
    ensures Padded(0, a) == 0
  {
  }

  lemma TimesZero(x: nat, y: nat)
    ensures Times(x, y) == 0 <==> x == 0 || y == 0
  {
  }

  /**
   * And it is copied whole exactly when the bytes counted by offset and width reach the end of the image; with
   * texels that need no padding, exactly when the offset is at least the height.
   */
  lemma SubImageWholeExactly(c: Call, a: Alignment)
    requires c.TexSubImage? && c.w > 0 && c.h > 0
    ensures Whole(c, a) <==> Extent(c, a) <= Times(RowBytes(c.y, c.fmt, c.type_, a), c.w)
    ensures TexelBytes(c.fmt, c.type_) % a == 0 ==> (Whole(c, a) <==> c.y >= c.h)
  {
    hide TexelBytes, RowBytes, Extent, Whole, Times;
    WholeExactly(c, a);
    if TexelBytes(c.fmt, c.type_) % a == 0 { UnpaddedReach(c, a); }
  }

  lemma UnpaddedReach(c: Call, a: Alignment)
    requires c.TexSubImage? && c.w > 0 && c.h > 0 && TexelBytes(c.fmt, c.type_) % a == 0
    ensures Extent(c, a) <= Copied(c, a) <==> c.y >= c.h
  {
    hide TexelBytes, Padded, Times;
    var n := TexelBytes(c.fmt, c.type_);
    var row := Times(c.w, n);
    NoPadding(c.w, n, a);
    NoPadding(c.y, n, a);
    TimesNext(c.h - 1, row);
    TimesAssociates(c.y, n, c.w);
    if c.y >= c.h {
      TimesMono(c.h, c.y, row);
    } else {
      TimesZero(c.w, n);
      TimesNext(c.y, row);
      TimesMono(c.y + 1, c.h, row);
    }
  }

  lemma TimesAssociates(y: nat, n: nat, w: nat)
    ensures Times(Times(y, n), w) == Times(y, Times(w, n))
  {
  }

  lemma NoPadding(w: nat, n: nat, a: Alignment)
    requires n % a == 0
    ensures Padded(Times(w, n), a) == Times(w, n)
  {
    assert w * n == w * (n / a) * a;
    Unpadded(w * (n / a), a);
  }

  lemma Unpadded(q: nat, a: Alignment)
    ensures Padded(q * a, a) == q * a
  {
  }

  /** Two sub-images of 64 x 64 texels: one is dropped, of the other an eighth is copied. */
  lemma SubImageExamples()
    ensures var c := TexSubImage(0x0de1, 0, 0, 0, 64, 64, GL_RGBA, 0x1401, 0x1000); !Forwards(c, 4)
    ensures var c := TexSubImage(0x0de1, 0, 0, 8, 64, 64, GL_RGBA, 0x1401, 0x1000);
            Forwards(c, 4) && Copied(c, 4) == 2048 && Extent(c, 4) == 16384 && !Whole(c, 4)
  {
    WholeExactly(TexSubImage(0x0de1, 0, 0, 8, 64, 64, GL_RGBA, 0x1401, 0x1000), 4);
  }
}
