/** Device memory as the fake microkernel sees it, and completion counters that only move forward. */
module SgxSync {
  import opened Numbers

  const HALF: nat := 0x8000_0000

  /** A device address under one page directory. */
  datatype Loc = Loc(pd: nat, dva: nat)

  /** Addresses wrap at 32 bits; the low bits of a directory's address do not count. */
  function At(pd: nat, dva: nat): Loc { Loc(pd - pd % 0x1000, dva % 0x1_0000_0000) }

  /** The mapped words. Others read as zero and ignore writes. */
  type Mem = map<Loc, word>

  function Rd(m: Mem, l: Loc): word { if l in m then m[l] else 0 }

  function Wr(m: Mem, l: Loc, v: word): (m': Mem)
    ensures m'.Keys == m.Keys
  {
    if l in m then m[l := v] else m
  }

  /** Is v ahead of `was` in 32-bit serial order? */
  predicate Ahead(v: word, was: word) { 0 < (v - was) % 0x1_0000_0000 < HALF }

  /** A write of a completion counter or of a plain value, both ignored at address 0; or of 0 over a 1. */
  datatype Write = Mono(l: Loc, v: word) | Put(l: Loc, v: word) | Unmark(l: Loc)

  function Apply(m: Mem, w: Write): (m': Mem)
    ensures m'.Keys == m.Keys
  {
    match w
    case Mono(l, v) => if l.dva != 0 && Ahead(v, Rd(m, l)) then Wr(m, l, v) else m
    case Put(l, v) => if l.dva != 0 then Wr(m, l, v) else m
    case Unmark(l) => if Rd(m, l) == 1 then Wr(m, l, 0) else m
  }

  function ApplyAll(m: Mem, ws: seq<Write>): (m': Mem)
    ensures m'.Keys == m.Keys
    decreases |ws|
  {
    if ws == [] then m else Apply(ApplyAll(m, ws[..|ws| - 1]), ws[|ws| - 1])
  }

  lemma {:induction false} ApplyConcat(m: Mem, a: seq<Write>, b: seq<Write>)
    ensures ApplyAll(m, a + b) == ApplyAll(ApplyAll(m, a), b)
    decreases |b|
  {
    if b == [] {
      assert a + b == a;
    } else {
      assert (a + b)[..|a + b| - 1] == a + b[..|b| - 1];
      ApplyConcat(m, a, b[..|b| - 1]);
    }
  }

  // ---------------------------------------------------------------- what is not written

  /** The two memories agree on the places in R. */
  ghost predicate Agree(m: Mem, m': Mem, R: set<Loc>)
  {
    m.Keys == m'.Keys && forall l :: l in R ==> Rd(m, l) == Rd(m', l)
  }

  ghost predicate Clear(ws: seq<Write>, R: set<Loc>)
  {
    forall i :: 0 <= i < |ws| ==> ws[i].l !in R
  }

  lemma {:induction false} ClearKeeps(m: Mem, ws: seq<Write>, R: set<Loc>)
    requires Clear(ws, R)
    ensures Agree(m, ApplyAll(m, ws), R)
    decreases |ws|
  {
    if ws != [] {
      var w := ws[|ws| - 1];
      ClearKeeps(m, ws[..|ws| - 1], R);
      assert w.l !in R;
    }
  }

  /** A write elsewhere can be made before or after. */
  lemma ApplyElsewhere(m: Mem, l: Loc, v: word, w: Write)
    requires w.l != l
    ensures Apply(Wr(m, l, v), w) == Wr(Apply(m, w), l, v)
  {
    assert Rd(Wr(m, l, v), w.l) == Rd(m, w.l);
    if l in m && w.l in m {
      var x := if w.Unmark? then 0 else w.v;
      assert m[l := v][w.l := x] == m[w.l := x][l := v];
    }
  }

  lemma {:induction false} ApplyAllElsewhere(m: Mem, l: Loc, v: word, ws: seq<Write>)
    requires forall i :: 0 <= i < |ws| ==> ws[i].l != l
    ensures ApplyAll(Wr(m, l, v), ws) == Wr(ApplyAll(m, ws), l, v)
    decreases |ws|
  {
    if ws != [] {
      ApplyAllElsewhere(m, l, v, ws[..|ws| - 1]);
      ApplyElsewhere(ApplyAll(m, ws[..|ws| - 1]), l, v, ws[|ws| - 1]);
    }
  }

  // ---------------------------------------------------------------- counters

  /** No write ever moves a counter backwards in serial order. */
  lemma CounterMovesForward(m: Mem, w: Write, l: Loc)
    requires w.l == l ==> w.Mono?
    ensures Rd(Apply(m, w), l) == Rd(m, l) || Ahead(Rd(Apply(m, w), l), Rd(m, l))
  {
  }

  /** The values written to the counter at l, in order. */
  function ValuesFor(ws: seq<Write>, l: Loc): (vs: seq<word>)
    decreases |ws|
  {
    if ws == [] then []
    else
      var rest := ValuesFor(ws[..|ws| - 1], l);
      if ws[|ws| - 1].l == l && ws[|ws| - 1].Mono? then rest + [ws[|ws| - 1].v] else rest
  }

  /** Only counter writes, never plain ones, go to l. */
  predicate IsCounter(ws: seq<Write>, l: Loc)
  {
    forall i :: 0 <= i < |ws| && ws[i].l == l ==> ws[i].Mono?
  }

  lemma {:induction false} ValuesConcat(a: seq<Write>, b: seq<Write>, l: Loc)
    ensures ValuesFor(a + b, l) == ValuesFor(a, l) + ValuesFor(b, l)
    decreases |b|
  {
    if b == [] {
      assert a + b == a;
    } else {
      assert (a + b)[..|a + b| - 1] == a + b[..|b| - 1];
      ValuesConcat(a, b[..|b| - 1], l);
    }
  }

  /** `us` are the counts behind the 32-bit values `vs`. */
  predicate Same(vs: seq<word>, us: seq<nat>)
  {
    |us| == |vs| && forall i :: 0 <= i < |us| ==> vs[i] == us[i] % 0x1_0000_0000
  }

  /** Counts in a window of half the number range. */
  predicate Within(lo: int, us: seq<nat>) { forall i :: 0 <= i < |us| ==> lo <= us[i] < lo + HALF }

  function Largest(start: nat, us: seq<nat>): (u: nat)
    ensures u == start || u in us
    ensures u >= start && forall i :: 0 <= i < |us| ==> us[i] <= u
    decreases |us|
  {
    if us == [] then start
    else
      var u := Largest(start, us[..|us| - 1]);
      if us[|us| - 1] > u then us[|us| - 1] else u
  }

  lemma AheadIsLarger(u: nat, c: nat)
    requires c < u + HALF && u < c + HALF
    ensures Ahead(u % 0x1_0000_0000, c % 0x1_0000_0000) <==> u > c
  {
    var d := u - c;
    assert (u % 0x1_0000_0000 - c % 0x1_0000_0000) % 0x1_0000_0000 == d % 0x1_0000_0000 by { DifferenceMod(u, c); }
  }

  lemma DifferenceMod(u: nat, c: nat)
    ensures (u % 0x1_0000_0000 - c % 0x1_0000_0000) % 0x1_0000_0000 == (u - c) % 0x1_0000_0000
  {
  }

  /**
   * A counter that was at `start` and got writes for the counts `us`, in whatever order the queues were worked off,
   * ends at the largest of them all.
   */
  lemma {:induction false} CounterEndsAtLargest(m: Mem, ws: seq<Write>, l: Loc, lo: int, start: nat, us: seq<nat>)
    requires l in m && l.dva != 0 && IsCounter(ws, l) && Rd(m, l) == start % 0x1_0000_0000
    requires Same(ValuesFor(ws, l), us) && Within(lo, us) && lo <= start < lo + HALF
    ensures Rd(ApplyAll(m, ws), l) == Largest(start, us) % 0x1_0000_0000
    decreases |ws|
  {
    if ws != [] {
      var before, w := ws[..|ws| - 1], ws[|ws| - 1];
      if w.l == l {
        var us' := us[..|us| - 1];
        assert ValuesFor(ws, l)[..|us| - 1] == ValuesFor(before, l);
        CounterEndsAtLargest(m, before, l, lo, start, us');
        AheadIsLarger(us[|us| - 1], Largest(start, us'));
      } else {
        CounterEndsAtLargest(m, before, l, lo, start, us);
        assert Rd(ApplyAll(m, ws), l) == Rd(ApplyAll(m, before), l);
      }
    }
  }
}
