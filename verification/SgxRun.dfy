/** Host and microkernel together: commands are queued and kicked, and what the counters show once all is done. */
module SgxRun {
  import opened Numbers
  import opened SgxSync
  import opened SgxCommands
  import opened SgxKicks
  import opened Sgx

  // ---------------------------------------------------------------- clients

  /** A client's hardware context and the queue it describes. */
  datatype Client = Client(context: nat, q: Queue)

  /** The kernel's directory, the clients, the words that are read as commands and offsets, and one counter. */
  datatype Setup = Setup(kpd: nat, clients: seq<Client>, R: set<Loc>, l: Loc)

  function WrAt(q: Queue): Loc { At(q.pd, q.ctl) }

  function RdAt(q: Queue): Loc { At(q.pd, q.ctl + 4) }

  function ReadOffsets(u: Setup): set<Loc> { set i | 0 <= i < |u.clients| :: RdAt(u.clients[i].q) }

  /** Counters and read offsets lie outside R; contexts and write offsets inside. */
  ghost predicate ClientApart(u: Setup, c: Client)
  {
    && WrAt(c.q) in u.R && RdAt(c.q) !in u.R && RdAt(c.q) != u.l
    && At(u.kpd, c.context + 8) in u.R && At(u.kpd, c.context + 0xc) in u.R && At(u.kpd, c.context + 0x10) in u.R
    && (!c.q.transfer ==> At(u.kpd, c.context) !in u.R + ReadOffsets(u) + {u.l})
  }

  ghost predicate Separate(u: Setup)
  {
    && u.l.dva != 0 && u.l !in u.R
    && (forall i :: 0 <= i < |u.clients| ==> ClientApart(u, u.clients[i]))
    && (forall i, j :: 0 <= i < j < |u.clients| ==> RdAt(u.clients[i].q) != RdAt(u.clients[j].q))
  }

  /** The context describes the queue, and its offsets are mapped. */
  ghost predicate Described(u: Setup, m: Mem, c: Client)
  {
    RdAt(c.q) in m && ClientQueue(m, u.kpd, c.q.transfer, c.context) == c.q
  }

  // ---------------------------------------------------------------- what is queued

  /** A queued command, and the counts its operations on the counter were given. */
  datatype Op = Op(at: nat, counts: seq<nat>)

  /** Device memory; per client the commands not completed yet; and the last count given out. */
  datatype State = State(mem: Mem, waiting: seq<seq<Op>>, issued: nat)

  /** The commands are those between read and write offset, one behind the other. */
  predicate Chain(q: Queue, m: Mem, wr: nat, ops: seq<Op>, rd: nat)
  {
    if ops == [] then rd == wr
    else ops[0].at == rd && rd != wr && Chain(q, m, wr, ops[1..], Next(q, m, rd))
  }

  function DemandsAt(q: Queue, m: Mem, rd: nat): seq<Demand> { Demands(m, q.pd, SlotsOf(q, m, rd)) }

  /** Nothing that is read as a command or an offset is demanded. */
  ghost predicate OffTheWay(ds: seq<Demand>, R: set<Loc>) { forall i :: 0 <= i < |ds| ==> ds[i].l !in R }

  /** The pending value of each operation is the count before its own. */
  predicate PendingBefore(ps: seq<word>, counts: seq<nat>)
  {
    |ps| == |counts| && forall j :: 0 <= j < |ps| ==> counts[j] > 0 && ps[j] == (counts[j] - 1) % 0x1_0000_0000
  }

  /**
   * A command that can be read undisturbed, whose words demand nothing of the counter but its advance, with the
   * pending values of the counts it was given.
   */
  ghost predicate Sound(u: Setup, q: Queue, m: Mem, o: Op)
  {
    var ds := DemandsAt(q, m, o.at);
    && Holds(q, m, o.at, u.R)
    && OffTheWay(ds, u.R + ReadOffsets(u))
    && CounterOnly(ds, u.l)
    && PendingBefore(PendingFor(ds, u.l), o.counts)
  }

  ghost predicate AllSound(u: Setup, q: Queue, m: Mem, ops: seq<Op>)
  {
    forall k :: 0 <= k < |ops| ==> Sound(u, q, m, ops[k])
  }

  ghost predicate Queued(u: Setup, m: Mem, c: Client, ops: seq<Op>)
  {
    Described(u, m, c) && Chain(c.q, m, Rd(m, WrAt(c.q)), ops, Rd(m, RdAt(c.q))) && AllSound(u, c.q, m, ops)
  }

  predicate IsWaiting(s: State, c: nat)
  {
    exists i, k :: 0 <= i < |s.waiting| && 0 <= k < |s.waiting[i]| && c in s.waiting[i][k].counts
  }

  /** Of the operations not completed, the oldest and the newest are less than 2^31 apart. */
  predicate InWindow(s: State)
  {
    forall i, k, c :: 0 <= i < |s.waiting| && 0 <= k < |s.waiting[i]| && c in s.waiting[i][k].counts ==>
      c <= s.issued < c + HALF - 1
  }

  /** Every operation given a count beyond `cur` is still queued. */
  ghost predicate BeyondWait(s: State, cur: nat)
  {
    forall c :: cur < c <= s.issued ==> IsWaiting(s, c)
  }

  /** The counter shows `cur`, and every operation beyond that is still queued. */
  ghost predicate Inv(u: Setup, s: State, cur: nat)
  {
    && Separate(u) && |s.waiting| == |u.clients| && u.l in s.mem
    && (forall i :: 0 <= i < |u.clients| ==> Queued(u, s.mem, u.clients[i], s.waiting[i]))
    && InWindow(s)
    && Rd(s.mem, u.l) == cur % 0x1_0000_0000 && cur <= s.issued && BeyondWait(s, cur)
  }

  // ---------------------------------------------------------------- steps

  /**
   * The host queues a command with n operations on the counter and moves the write offset; it, or the microkernel
   * in answer to another request, stores words; or a client is kicked.
   */
  datatype Event = Submit(i: nat, words: map<Loc, word>, n: nat) | Store(words: map<Loc, word>) | Kicked(i: nat)

  function Stored(m: Mem, words: map<Loc, word>): (m': Mem)
    ensures m'.Keys == m.Keys
  {
    map l | l in m :: if l in words then words[l] else m[l]
  }

  /** The next n counts. */
  function Fresh(issued: nat, n: nat): (us: seq<nat>)
    ensures |us| == n && forall j :: 0 <= j < n ==> us[j] == issued + j + 1
  {
    seq(n, j requires 0 <= j < n => issued + j + 1)
  }

  function AfterKick(u: Setup, m: Mem, c: Client): Mem
  {
    if c.q.transfer then TransferKick(m, u.kpd, c.context) else TaKick(m, u.kpd, c.context)
  }

  function NumberTaken(q: Queue, m: Mem): nat { |Taken(q, m, Rd(m, WrAt(q)), Rd(m, RdAt(q)), MOST)| }

  function NewOp(u: Setup, s: State, e: Event): Op
    requires e.Submit? && e.i < |u.clients|
  {
    Op(Rd(s.mem, WrAt(u.clients[e.i].q)), Fresh(s.issued, e.n))
  }

  /** Memory after the event, and who waits. */
  function After(u: Setup, s: State, e: Event): State
    requires |s.waiting| == |u.clients| && (e.Submit? || e.Kicked? ==> e.i < |u.clients|)
  {
    match e
    case Submit(i, words, n) =>
      State(Stored(s.mem, words), s.waiting[i := s.waiting[i] + [NewOp(u, s, e)]], s.issued + n)
    case Store(words) => s.(mem := Stored(s.mem, words))
    case Kicked(i) =>
      var k := NumberTaken(u.clients[i].q, s.mem);
      State(AfterKick(u, s.mem, u.clients[i]),
            s.waiting[i := if k <= |s.waiting[i]| then s.waiting[i][k..] else []], s.issued)
  }

  /** A queued command keeps its size and what it asks for, whether or not it becomes ready. */
  ghost predicate SameOp(u: Setup, q: Queue, m: Mem, m': Mem, o: Op)
  {
    Holds(q, m', o.at, u.R) && Next(q, m', o.at) == Next(q, m, o.at) && DemandsAt(q, m', o.at) == DemandsAt(q, m, o.at)
  }

  ghost predicate SameOps(u: Setup, q: Queue, m: Mem, m': Mem, ops: seq<Op>)
  {
    forall k :: 0 <= k < |ops| ==> SameOp(u, q, m, m', ops[k])
  }

  /** Stores leave counter, offsets and queued commands alone; the write offset of client i may move. */
  ghost predicate Harmless(u: Setup, s: State, words: map<Loc, word>, i: int)
    requires |s.waiting| == |u.clients|
  {
    && u.l !in words
    && forall j :: 0 <= j < |u.clients| ==>
         && RdAt(u.clients[j].q) !in words && (j != i ==> WrAt(u.clients[j].q) !in words)
         && Described(u, Stored(s.mem, words), u.clients[j])
         && SameOps(u, u.clients[j].q, s.mem, Stored(s.mem, words), s.waiting[j])
  }

  /** The new command lies at the old write offset and ends at the new one, which no queued command starts at. */
  ghost predicate Appends(u: Setup, s: State, e: Event)
    requires e.Submit? && e.i < |u.clients| == |s.waiting|
  {
    var q, m' := u.clients[e.i].q, Stored(s.mem, e.words);
    var o, wr := NewOp(u, s, e), Rd(m', WrAt(q));
    && Sound(u, q, m', o) && Next(q, m', o.at) == wr && wr != o.at
    && forall k :: 0 <= k < |s.waiting[e.i]| ==> s.waiting[e.i][k].at != wr
  }

  ghost predicate Legal(u: Setup, s: State, e: Event)
    requires |s.waiting| == |u.clients|
  {
    match e
    case Submit(i, words, n) =>
      i < |u.clients| && Harmless(u, s, words, i) && Appends(u, s, e) && InWindow(After(u, s, e))
    case Store(words) => Harmless(u, s, words, -1)
    case Kicked(i) => i < |u.clients|
  }

  // ---------------------------------------------------------------- reading what is queued

  function Offsets(ops: seq<Op>): (rds: seq<nat>)
    ensures |rds| == |ops| && forall k :: 0 <= k < |ops| ==> rds[k] == ops[k].at
  {
    seq(|ops|, k requires 0 <= k < |ops| => ops[k].at)
  }

  function CountsOf(ops: seq<Op>): seq<nat> { if ops == [] then [] else ops[0].counts + CountsOf(ops[1..]) }

  lemma {:induction false} CountsIn(ops: seq<Op>, c: nat)
    ensures c in CountsOf(ops) <==> exists k :: 0 <= k < |ops| && c in ops[k].counts
    decreases |ops|
  {
    if ops != [] {
      CountsIn(ops[1..], c);
      if k :| 0 <= k < |ops| && c in ops[k].counts && k > 0 { assert c in ops[1..][k - 1].counts; }
      if k :| 0 <= k < |ops[1..]| && c in ops[1..][k].counts { assert c in ops[k + 1].counts; }
    }
  }

  lemma CountsHave(ops: seq<Op>, k: nat, c: nat, b: nat)
    requires b < k <= |ops| && c in ops[b].counts
    ensures c in CountsOf(ops[..k])
  {
    assert c in ops[..k][b].counts;
    CountsIn(ops[..k], c);
  }

  /** A kick takes the first of the queued commands, and the others stay queued. */
  lemma {:induction false} TakenOfChain(q: Queue, m: Mem, wr: nat, ops: seq<Op>, rd: nat, guard: nat) returns (k: nat)
    requires Chain(q, m, wr, ops, rd)
    ensures k == |Taken(q, m, wr, rd, guard)| <= |ops| && Taken(q, m, wr, rd, guard) == Offsets(ops[..k])
    ensures Left(q, m, wr, rd, guard) == (if k < |ops| then ops[k].at else wr)
    ensures Chain(q, m, wr, ops[k..], Left(q, m, wr, rd, guard))
    decreases guard
  {
    hide Ready, Next;
    if guard == 0 || rd == wr || !Ready(q, m, rd) {
      k := 0;
      assert ops[0..] == ops;
    } else {
      k := TakenOfChain(q, m, wr, ops[1..], Next(q, m, rd), guard - 1);
      k := k + 1;
      assert ops[1..][k - 1..] == ops[k..];
      assert Offsets(ops[..k]) == [rd] + Offsets(ops[1..][..k - 1]);
    }
  }

  /** All writes of sound commands stay clear of what is read, and bring the counter the commands' counts. */
  lemma {:induction false} WritesSound(u: Setup, q: Queue, m: Mem, ops: seq<Op>)
    requires AllSound(u, q, m, ops)
    ensures var ws := WritesOf(q, m, Offsets(ops));
            && Clear(ws, u.R + ReadOffsets(u)) && IsCounter(ws, u.l) && Same(ValuesFor(ws, u.l), CountsOf(ops))
    decreases |ops|
  {
    hide Sound, Clear, IsCounter, Same, WritesAt;
    if ops == [] {
      NoWrites(u.l, u.R + ReadOffsets(u));
    } else {
      assert Sound(u, q, m, ops[0]);
      assert Offsets(ops)[1..] == Offsets(ops[1..]);
      WritesSound(u, q, m, ops[1..]);
      var a, b := WritesAt(q, m, ops[0].at), WritesOf(q, m, Offsets(ops[1..]));
      WritesAtFirst(q, m, ops);
      SoundWrites(u, q, m, ops[0]);
      BothSound(u.l, u.R + ReadOffsets(u), a, b, ops[0].counts, CountsOf(ops[1..]));
    }
  }

  lemma NoWrites(l: Loc, R: set<Loc>)
    ensures Clear([], R) && IsCounter([], l) && Same(ValuesFor([], l), [])
  {
  }

  lemma WritesAtFirst(q: Queue, m: Mem, ops: seq<Op>)
    requires ops != []
    ensures WritesOf(q, m, Offsets(ops)) == WritesAt(q, m, ops[0].at) + WritesOf(q, m, Offsets(ops[1..]))
  {
    hide SlotsOf, Asked;
    assert Offsets(ops)[1..] == Offsets(ops[1..]);
  }

  function WritesAt(q: Queue, m: Mem, rd: nat): seq<Write> { AskedAll(m, q.pd, SlotsOf(q, m, rd)) }

  lemma SoundWrites(u: Setup, q: Queue, m: Mem, o: Op)
    requires Sound(u, q, m, o)
    ensures var ws := WritesAt(q, m, o.at);
            Clear(ws, u.R + ReadOffsets(u)) && IsCounter(ws, u.l) && Same(ValuesFor(ws, u.l), o.counts)
  {
    hide ValuesFor, PendingFor, Holds, SlotsOf, ReadOffsets, Asked, DemandOf;
    var ss := SlotsOf(q, m, o.at);
    ValuesPending(m, q.pd, ss, u.l);
    forall i | 0 <= i < |ss| ensures AskedAll(m, q.pd, ss)[i].l == Demands(m, q.pd, ss)[i].l {
      AskedMeets(m, q.pd, ss[i]);
    }
    forall j | 0 <= j < |o.counts| ensures ValuesFor(WritesAt(q, m, o.at), u.l)[j] == o.counts[j] % 0x1_0000_0000 {
      NextCount(o.counts[j]);
    }
  }

  lemma NextCount(c: nat)
    requires c > 0
    ensures ((c - 1) % 0x1_0000_0000 + 1) % 0x1_0000_0000 == c % 0x1_0000_0000
  {
  }

  lemma BothSound(l: Loc, R: set<Loc>, a: seq<Write>, b: seq<Write>, us: seq<nat>, vs: seq<nat>)
    requires Clear(a, R) && IsCounter(a, l) && Same(ValuesFor(a, l), us)
    requires Clear(b, R) && IsCounter(b, l) && Same(ValuesFor(b, l), vs)
    ensures Clear(a + b, R) && IsCounter(a + b, l) && Same(ValuesFor(a + b, l), us + vs)
  {
    hide ValuesFor;
    ValuesConcat(a, b, l);
  }

  lemma {:induction false} AgreeChain(u: Setup, q: Queue, m: Mem, m': Mem, wr: nat, ops: seq<Op>, rd: nat)
    requires SameOps(u, q, m, m', ops) && Chain(q, m, wr, ops, rd)
    ensures Chain(q, m', wr, ops, rd)
    decreases |ops|
  {
    hide Next, Holds, WritesAt;
    if ops != [] {
      assert SameOp(u, q, m, m', ops[0]);
      assert forall k :: 0 <= k < |ops[1..]| ==> ops[1..][k] == ops[k + 1];
      AgreeChain(u, q, m, m', wr, ops[1..], Next(q, m, rd));
    }
  }

  lemma SoundSame(u: Setup, q: Queue, m: Mem, m': Mem, ops: seq<Op>)
    requires SameOps(u, q, m, m', ops) && AllSound(u, q, m, ops)
    ensures AllSound(u, q, m', ops)
  {
    hide Holds, WritesAt, Clear, IsCounter, ValuesFor, Next;
    forall k | 0 <= k < |ops| ensures Sound(u, q, m', ops[k]) {
      assert Sound(u, q, m, ops[k]) && SameOp(u, q, m, m', ops[k]);
    }
  }

  lemma AgreeOps(u: Setup, q: Queue, m: Mem, m': Mem, ops: seq<Op>)
    requires AllSound(u, q, m, ops) && Agree(m, m', u.R)
    ensures SameOps(u, q, m, m', ops)
  {
    hide Holds, Clear, IsCounter, ValuesFor, Next, SlotsOf, Asked, Agree;
    forall k | 0 <= k < |ops| ensures SameOp(u, q, m, m', ops[k]) {
      assert Sound(u, q, m, ops[k]);
      AgreeCommand(q, m, m', ops[k].at, u.R);
    }
  }

  // ---------------------------------------------------------------- a kick

  /** What a kick writes: the read offset of its queue, and for TA queues the context's flags, beside `ws`. */
  ghost predicate Leaves(u: Setup, m: Mem, ws: seq<Write>, c: Client, left: nat, m': Mem)
  {
    && Agree(m, m', u.R) && Rd(m', RdAt(c.q)) == left
    && (forall l :: l in ReadOffsets(u) && l != RdAt(c.q) ==> Rd(m', l) == Rd(m, l))
    && Rd(m', u.l) == Rd(ApplyAll(m, ws), u.l)
  }

  lemma KickLeaves(u: Setup, m: Mem, c: Client, ops: seq<Op>) returns (k: nat, left: nat, ws: seq<Write>)
    requires Separate(u) && c in u.clients && Queued(u, m, c, ops)
    ensures k == NumberTaken(c.q, m) <= |ops| && ws == WritesOf(c.q, m, Offsets(ops[..k]))
    ensures Chain(c.q, m, Rd(m, WrAt(c.q)), ops[k..], left) && Leaves(u, m, ws, c, left, AfterKick(u, m, c))
    ensures Clear(ws, u.R + ReadOffsets(u)) && IsCounter(ws, u.l) && Same(ValuesFor(ws, u.l), CountsOf(ops[..k]))
  {
    hide Chain, Sound, Kick, Taken, Left, WritesOf, Holds, HoldsTaken, At, ReadOffsets, ValuesFor, CountsOf;
    var q, wr: nat, rd: nat := c.q, Rd(m, WrAt(c.q)), Rd(m, RdAt(c.q));
    k := TakenOfChain(q, m, wr, ops, rd, MOST);
    left := Left(q, m, wr, rd, MOST);
    ws := WritesOf(q, m, Offsets(ops[..k]));
    AllSoundPart(u, q, m, ops, k);
    WritesSound(u, q, m, ops[..k]);
    IsReadOffset(u, c);
    TakenHeld(u, q, m, wr, ops, k, rd);
    ClearLess(ws, u.R + ReadOffsets(u), u.R + {RdAt(q)});
    KickCompletes(q, m, MOST, u.R);
    ClearKeeps(m, ws, u.R + ReadOffsets(u));
    KickAfter(u, m, c, ws, left);
  }

  lemma AllSoundPart(u: Setup, q: Queue, m: Mem, ops: seq<Op>, k: nat)
    requires k <= |ops| && AllSound(u, q, m, ops)
    ensures AllSound(u, q, m, ops[..k]) && AllSound(u, q, m, ops[k..])
  {
    hide Sound;
  }

  lemma IsReadOffset(u: Setup, c: Client)
    requires c in u.clients
    ensures RdAt(c.q) in ReadOffsets(u)
  {
  }

  lemma ClearLess(ws: seq<Write>, R: set<Loc>, Q: set<Loc>)
    requires Clear(ws, R) && Q <= R
    ensures Clear(ws, Q)
  {
  }

  lemma TakenHeld(u: Setup, q: Queue, m: Mem, wr: nat, ops: seq<Op>, k: nat, rd: nat)
    requires AllSound(u, q, m, ops) && k <= |ops| && Taken(q, m, wr, rd, MOST) == Offsets(ops[..k])
    requires Left(q, m, wr, rd, MOST) == if k < |ops| then ops[k].at else wr
    ensures HoldsTaken(q, m, wr, rd, MOST, u.R)
  {
    hide Holds, WritesAt, Clear, IsCounter, ValuesFor, Taken, Left;
    forall j | 0 <= j < k ensures Holds(q, m, Offsets(ops[..k])[j], u.R) { assert Sound(u, q, m, ops[j]); }
    if k < |ops| { assert Sound(u, q, m, ops[k]); }
  }

  lemma KickAfter(u: Setup, m: Mem, c: Client, ws: seq<Write>, left: word)
    requires Separate(u) && c in u.clients && Described(u, m, c)
    requires Kick(c.q, m, MOST) == Wr(ApplyAll(m, ws), RdAt(c.q), left)
    requires Agree(m, ApplyAll(m, ws), u.R + ReadOffsets(u))
    ensures Leaves(u, m, ws, c, left, AfterKick(u, m, c))
  {
    hide Kick, ApplyAll, At, ReadOffsets, ClientQueue;
    assert ClientApart(u, c);
    IsReadOffset(u, c);
    var done := Kick(c.q, m, MOST);
    assert forall l :: l in u.R ==> l != RdAt(c.q) && (!c.q.transfer ==> l != At(u.kpd, c.context));
  }

  /** A client's queue in a memory that agrees on what is read. */
  lemma StillQueued(u: Setup, m: Mem, m': Mem, c: Client, ops: seq<Op>, k: nat)
    requires Separate(u) && c in u.clients && Described(u, m, c) && AllSound(u, c.q, m, ops) && k <= |ops|
    requires Chain(c.q, m, Rd(m, WrAt(c.q)), ops[k..], Rd(m', RdAt(c.q))) && Agree(m, m', u.R)
    ensures Queued(u, m', c, ops[k..])
  {
    hide Chain, Sound, At;
    assert ClientApart(u, c);
    AllSoundPart(u, c.q, m, ops, k);
    AgreeOps(u, c.q, m, m', ops[k..]);
    AgreeChain(u, c.q, m, m', Rd(m, WrAt(c.q)), ops[k..], Rd(m', RdAt(c.q)));
    SoundSame(u, c.q, m, m', ops[k..]);
  }

  /** The counts of taken commands lie in a window with what the counter shows. */
  lemma CounterAfter(u: Setup, s: State, cur: nat, ws: seq<Write>, us: seq<nat>) returns (cur': nat)
    requires Inv(u, s, cur) && IsCounter(ws, u.l) && Same(ValuesFor(ws, u.l), us)
    requires forall c :: c in us ==> IsWaiting(s, c)
    ensures cur' == Largest(cur, us) <= s.issued && Rd(ApplyAll(s.mem, ws), u.l) == cur' % 0x1_0000_0000
  {
    hide Queued, ValuesFor, ApplyAll, IsCounter;
    var lo: int := s.issued - HALF + 1;
    forall i | 0 <= i < |us| ensures lo <= us[i] <= s.issued { WaitingInWindow(s, us[i]); }
    if cur < s.issued { WaitingInWindow(s, cur + 1); }
    CounterEndsAtLargest(s.mem, ws, u.l, lo, cur, us);
    cur' := Largest(cur, us);
  }

  lemma WaitingInWindow(s: State, c: nat)
    requires InWindow(s) && IsWaiting(s, c)
    ensures c <= s.issued < c + HALF - 1
  {
  }

  /** Less the commands taken, everybody is queued as before. */
  lemma AllStillQueued(u: Setup, s: State, i: nat, k: nat, left: nat, ws: seq<Write>, m': Mem, j: nat)
    requires Separate(u) && |s.waiting| == |u.clients| && i < |u.clients| && j < |u.clients| && k <= |s.waiting[i]|
    requires Queued(u, s.mem, u.clients[j], s.waiting[j]) && Leaves(u, s.mem, ws, u.clients[i], left, m')
    requires Chain(u.clients[i].q, s.mem, Rd(s.mem, WrAt(u.clients[i].q)), s.waiting[i][k..], left)
    ensures Queued(u, m', u.clients[j], s.waiting[i := s.waiting[i][k..]][j])
  {
    hide Chain, AllSound, ApplyAll, At, ReadOffsets, Described;
    var c := u.clients[j];
    IsReadOffset(u, c);
    if j == i {
      StillQueued(u, s.mem, m', c, s.waiting[i], k);
    } else {
      assert RdAt(c.q) != RdAt(u.clients[i].q);
      assert s.waiting[j][0..] == s.waiting[j];
      StillQueued(u, s.mem, m', c, s.waiting[j], 0);
    }
  }

  /** The operations taken were waiting, and those beyond the largest of them and `cur` still are. */
  lemma TakenWere(s: State, i: nat, k: nat, m': Mem, cur: nat)
    requires i < |s.waiting| && k <= |s.waiting[i]| && InWindow(s) && BeyondWait(s, cur)
    ensures forall c :: c in CountsOf(s.waiting[i][..k]) ==> IsWaiting(s, c)
    ensures var t := State(m', s.waiting[i := s.waiting[i][k..]], s.issued);
            InWindow(t) && BeyondWait(t, Largest(cur, CountsOf(s.waiting[i][..k])))
  {
    var us, t := CountsOf(s.waiting[i][..k]), State(m', s.waiting[i := s.waiting[i][k..]], s.issued);
    forall c | c in us ensures IsWaiting(s, c) {
      CountsIn(s.waiting[i][..k], c);
      var j :| 0 <= j < k && c in s.waiting[i][..k][j].counts;
      assert c in s.waiting[i][j].counts;
    }
    forall c | Largest(cur, us) < c <= s.issued ensures IsWaiting(t, c) {
      assert IsWaiting(s, c);
      var a, b :| 0 <= a < |s.waiting| && 0 <= b < |s.waiting[a]| && c in s.waiting[a][b].counts;
      if a == i {
        if b < k { CountsHave(s.waiting[i], k, c, b); }
        assert c in t.waiting[i][b - k].counts;
      } else {
        assert c in t.waiting[a][b].counts;
      }
    }
    forall a, b, c | 0 <= a < |t.waiting| && 0 <= b < |t.waiting[a]| && c in t.waiting[a][b].counts
      ensures c <= s.issued < c + HALF - 1
    {
      if a == i { assert c in s.waiting[i][b + k].counts; } else { assert c in s.waiting[a][b].counts; }
    }
  }

  lemma KickKeeps(u: Setup, s: State, i: nat, cur: nat) returns (cur': nat)
    requires Inv(u, s, cur) && i < |u.clients|
    ensures Inv(u, After(u, s, Kicked(i)), cur') && cur' >= cur
  {
    hide Queued, AfterKick, CountsOf, WritesOf, Largest, IsCounter, ValuesFor, Clear, ApplyAll, ReadOffsets, Same;
    hide InWindow, IsWaiting, Separate, Chain, NumberTaken, BeyondWait;
    var c, ops := u.clients[i], s.waiting[i];
    var k, left, ws := KickLeaves(u, s.mem, c, ops);
    var m' := AfterKick(u, s.mem, c);
    TakenWere(s, i, k, m', cur);
    cur' := CounterAfter(u, s, cur, ws, CountsOf(ops[..k]));
    forall j | 0 <= j < |u.clients| ensures Queued(u, m', u.clients[j], s.waiting[i := ops[k..]][j]) {
      AllStillQueued(u, s, i, k, left, ws, m', j);
    }
  }

  // ---------------------------------------------------------------- stores

  lemma StoredAt(m: Mem, words: map<Loc, word>, l: Loc)
    requires l !in words
    ensures Rd(Stored(m, words), l) == Rd(m, l)
  {
  }

  /** Harmless stores leave a queue as it is, but for the write offset of client i. */
  lemma StoresKeep(u: Setup, s: State, words: map<Loc, word>, i: int, j: nat)
    requires |s.waiting| == |u.clients| && Harmless(u, s, words, i) && j < |u.clients|
    requires Queued(u, s.mem, u.clients[j], s.waiting[j])
    ensures var q, m' := u.clients[j].q, Stored(s.mem, words);
            && Described(u, m', u.clients[j]) && AllSound(u, q, m', s.waiting[j])
            && Chain(q, m', Rd(s.mem, WrAt(q)), s.waiting[j], Rd(m', RdAt(q)))
            && (j != i ==> Rd(m', WrAt(q)) == Rd(s.mem, WrAt(q)))
  {
    hide Chain, Sound, Described, SameOp, Stored, WrAt, RdAt;
    var q, m' := u.clients[j].q, Stored(s.mem, words);
    StoredAt(s.mem, words, RdAt(q));
    if j != i { StoredAt(s.mem, words, WrAt(q)); }
    SoundSame(u, q, s.mem, m', s.waiting[j]);
    AgreeChain(u, q, s.mem, m', Rd(s.mem, WrAt(q)), s.waiting[j], Rd(s.mem, RdAt(q)));
  }

  lemma StoreKeeps(u: Setup, s: State, words: map<Loc, word>, cur: nat)
    requires Inv(u, s, cur) && Harmless(u, s, words, -1)
    ensures Inv(u, After(u, s, Store(words)), cur)
  {
    hide Chain, Sound, Described, SameOps, Stored, Separate, IsWaiting, InWindow, BeyondWait;
    StoredAt(s.mem, words, u.l);
    forall j | 0 <= j < |u.clients| ensures Queued(u, Stored(s.mem, words), u.clients[j], s.waiting[j]) {
      StoresKeep(u, s, words, -1, j);
    }
    SameWaiting(s, Stored(s.mem, words));
  }

  lemma SameWaiting(s: State, m': Mem)
    ensures InWindow(s) ==> InWindow(s.(mem := m'))
    ensures forall cur :: BeyondWait(s, cur) ==> BeyondWait(s.(mem := m'), cur)
  {
    assert forall c :: IsWaiting(s, c) ==> IsWaiting(s.(mem := m'), c);
  }

  /** One more command at the end of a chain. */
  lemma {:induction false} ChainMore(q: Queue, m: Mem, wr: nat, ops: seq<Op>, rd: nat, o: Op, wr': nat)
    requires Chain(q, m, wr, ops, rd) && o.at == wr && Next(q, m, wr) == wr' && wr' != wr
    requires forall k :: 0 <= k < |ops| ==> ops[k].at != wr'
    ensures Chain(q, m, wr', ops + [o], rd)
    decreases |ops|
  {
    hide Next;
    if ops == [] {
      assert [o][1..] == [];
    } else {
      ChainMore(q, m, wr, ops[1..], Next(q, m, rd), o, wr');
      assert (ops + [o])[1..] == ops[1..] + [o];
    }
  }

  lemma MoreWaiting(s: State, i: nat, o: Op, n: nat, m': Mem, cur: nat)
    requires i < |s.waiting| && o.counts == Fresh(s.issued, n)
    requires BeyondWait(s, cur)
    ensures BeyondWait(State(m', s.waiting[i := s.waiting[i] + [o]], s.issued + n), cur)
  {
    var t := State(m', s.waiting[i := s.waiting[i] + [o]], s.issued + n);
    forall c | cur < c <= s.issued + n ensures IsWaiting(t, c) {
      if c <= s.issued {
        assert IsWaiting(s, c);
        var a, b :| 0 <= a < |s.waiting| && 0 <= b < |s.waiting[a]| && c in s.waiting[a][b].counts;
        assert c in t.waiting[a][b].counts;
      } else {
        assert o.counts[c - s.issued - 1] == c;
        assert c in t.waiting[i][|s.waiting[i]|].counts;
      }
    }
  }

  lemma SubmitKeeps(u: Setup, s: State, e: Event, cur: nat)
    requires Inv(u, s, cur) && e.Submit? && Legal(u, s, e)
    ensures Inv(u, After(u, s, e), cur)
  {
    hide Chain, Sound, Described, SameOps, Stored, Separate, IsWaiting, InWindow, BeyondWait, Next, RdAt, WrAt;
    var i, m', o := e.i, Stored(s.mem, e.words), NewOp(u, s, e);
    StoredAt(s.mem, e.words, u.l);
    forall j | 0 <= j < |u.clients| ensures Queued(u, m', u.clients[j], s.waiting[i := s.waiting[i] + [o]][j]) {
      StoresKeep(u, s, e.words, i, j);
      if j == i {
        var q := u.clients[i].q;
        ChainMore(q, m', Rd(s.mem, WrAt(q)), s.waiting[i], Rd(m', RdAt(q)), o, Rd(m', WrAt(q)));
      }
    }
    MoreWaiting(s, i, o, e.n, m', cur);
  }

  // ---------------------------------------------------------------- runs

  function Run(u: Setup, s: State, evs: seq<Event>): (t: State)
    requires |s.waiting| == |u.clients|
    requires forall i :: 0 <= i < |evs| && !evs[i].Store? ==> evs[i].i < |u.clients|
    ensures |t.waiting| == |u.clients|
    decreases |evs|
  {
    if evs == [] then s else After(u, Run(u, s, evs[..|evs| - 1]), evs[|evs| - 1])
  }

  ghost predicate LegalRun(u: Setup, s: State, evs: seq<Event>)
    requires |s.waiting| == |u.clients|
    decreases |evs|
  {
    && (forall i :: 0 <= i < |evs| && !evs[i].Store? ==> evs[i].i < |u.clients|)
    && (evs != [] ==> LegalRun(u, s, evs[..|evs| - 1]) && Legal(u, Run(u, s, evs[..|evs| - 1]), evs[|evs| - 1]))
  }

  /** In every queue the read offset has caught up with the write offset. */
  predicate Drained(u: Setup, m: Mem)
  {
    forall i :: 0 <= i < |u.clients| ==> Rd(m, RdAt(u.clients[i].q)) == Rd(m, WrAt(u.clients[i].q))
  }

  /** Nothing queued yet, and the counter shows the pending count. */
  ghost predicate Starts(u: Setup, s: State)
  {
    && Separate(u) && |s.waiting| == |u.clients| && u.l in s.mem && Drained(u, s.mem)
    && (forall i :: 0 <= i < |u.clients| ==> s.waiting[i] == [] && Described(u, s.mem, u.clients[i]))
    && Rd(s.mem, u.l) == s.issued % 0x1_0000_0000
  }

  /**
   * In every state of a run, whatever the order of submissions, stores and kicks, the counter shows one of the
   * counts given out, and every operation with a later one is still queued.
   */
  lemma {:induction false} RunKeeps(u: Setup, s: State, evs: seq<Event>) returns (cur: nat)
    requires Starts(u, s) && LegalRun(u, s, evs)
    ensures Inv(u, Run(u, s, evs), cur)
    decreases |evs|
  {
    hide After, Legal, Separate, Described, Inv;
    if evs == [] {
      cur := s.issued;
      StartsWell(u, s);
    } else {
      var before, e := evs[..|evs| - 1], evs[|evs| - 1];
      cur := RunKeeps(u, s, before);
      cur := EventKeeps(u, Run(u, s, before), e, cur);
    }
  }

  lemma StartsWell(u: Setup, s: State)
    requires Starts(u, s)
    ensures Inv(u, s, s.issued)
  {
    hide Separate, Described;
  }

  lemma EventKeeps(u: Setup, s: State, e: Event, cur: nat) returns (cur': nat)
    requires Inv(u, s, cur) && Legal(u, s, e)
    ensures Inv(u, After(u, s, e), cur')
  {
    hide Inv, Harmless, Appends, InWindow, After;
    cur' := cur;
    match e
    case Submit(_, _, _) => SubmitKeeps(u, s, e, cur);
    case Store(words) => StoreKeeps(u, s, words, cur);
    case Kicked(i) => cur' := KickKeeps(u, s, i, cur);
  }

  /**
   * When every queue is drained, the counter equals its pending count. Operations may have been queued by any
   * clients and their queues worked off in any order, as long as fewer than 2^31 were outstanding at a time.
   */
  lemma DrainedMeansPending(u: Setup, s: State, evs: seq<Event>)
    requires Starts(u, s) && LegalRun(u, s, evs) && Drained(u, Run(u, s, evs).mem)
    ensures Rd(Run(u, s, evs).mem, u.l) == Run(u, s, evs).issued % 0x1_0000_0000
  {
    hide Run, Legal, Separate, Described, AllSound;
    var cur := RunKeeps(u, s, evs);
    var t := Run(u, s, evs);
    forall i | 0 <= i < |u.clients| ensures t.waiting[i] == [] {
      assert Queued(u, t.mem, u.clients[i], t.waiting[i]);
    }
    assert !IsWaiting(t, t.issued);
  }
}
