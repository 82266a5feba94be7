/** A general-purpose timer: a counter kept as a value and the time it was taken, and the events scheduled for it. */
module GpTimer {
  import opened Numbers
  import opened Wrappers

  const MAX: nat := 0xFFFF_FFFF

  // ---------------------------------------------------------------- ticks and nanoseconds

  /** Whole ticks in d nanoseconds. */
  function Ticks(d: nat, rate: nat): nat { d * rate / 1_000_000_000 }

  /** Nanoseconds n ticks take, rounded down. */
  function Delay(n: nat, rate: nat): nat
    requires rate > 0
  {
    n * 1_000_000_000 / rate
  }

  lemma Quotient(a: nat, b: nat, q: nat)
    requires b > 0 && q * b <= a < q * b + b
    ensures a / b == q
  {
    RemainderOf(a, b, q, a - q * b);
  }

  /** Before the delay of n ticks is over, n ticks have not passed. */
  lemma TicksBeforeDelay(d: nat, n: nat, rate: nat)
    requires rate > 0 && d < Delay(n, rate)
    ensures Ticks(d, rate) < n
  {
    var full := Delay(n, rate);
    assert full * rate <= n * 1_000_000_000;
    MulMono(d + 1, full, rate);
    assert d * rate < n * 1_000_000_000;
  }

  /** When it is over they have, or all but one of them, according to whether the delay was rounded. */
  lemma TicksAtDelay(n: nat, rate: nat)
    requires 0 < rate <= 1_000_000_000 && n > 0
    ensures Ticks(Delay(n, rate), rate) == if n * 1_000_000_000 % rate == 0 then n else n - 1
  {
    var all := n * 1_000_000_000;
    var d, m := all / rate, all % rate;
    assert d * rate == all - m;
    if m == 0 {
      Quotient(d * rate, 1_000_000_000, n);
    } else {
      Quotient(d * rate, 1_000_000_000, n - 1);
    }
  }

  /** Counting two spans apart loses at most one tick. */
  lemma TicksSplit(a: nat, b: nat, rate: nat)
    ensures Ticks(a, rate) + Ticks(b, rate) <= Ticks(a + b, rate) <= Ticks(a, rate) + Ticks(b, rate) + 1
  {
    var x, y := a * rate, b * rate;
    assert (a + b) * rate == x + y;
    FloorSum(x, y);
  }

  lemma FloorSum(x: nat, y: nat)
    ensures x / 1_000_000_000 + y / 1_000_000_000 <= (x + y) / 1_000_000_000
         <= x / 1_000_000_000 + y / 1_000_000_000 + 1
  {
  }

  // ---------------------------------------------------------------- the counter

  /** One tick: count up; from the top reload, or stay there in one-shot mode. */
  function Tick1(x: nat, ar: bool, tldr: nat): nat
  {
    if x < MAX then x + 1 else if ar then tldr else MAX
  }

  function Iterate(x: nat, n: nat, ar: bool, tldr: nat): nat
  {
    if n == 0 then x else Tick1(Iterate(x, n - 1, ar, tldr), ar, tldr)
  }

  /** The value n ticks after an overflow. */
  function Wrapped(n: nat, tldr: nat): (v: nat)
    requires tldr <= MAX
    ensures tldr <= v <= MAX
  {
    tldr + n % (MAX + 1 - tldr)
  }

  /** n ticks at once. */
  function Closed(x: nat, n: nat, ar: bool, tldr: nat): nat
    requires tldr <= MAX
  {
    if x + n <= MAX then x + n
    else if !ar then MAX
    else Wrapped(x + n - (MAX + 1), tldr)
  }

  lemma NextMod(a: nat, p: nat)
    requires p > 0
    ensures (a + 1) % p == if a % p == p - 1 then 0 else a % p + 1
  {
    var q, r := a / p, a % p;
    assert a == q * p + r;
    if r == p - 1 {
      assert a + 1 == (q + 1) * p;
      Quotient(a + 1, p, q + 1);
    } else {
      Quotient(a + 1, p, q);
    }
  }

  /** The closed form is the counter counted tick by tick, for every start, reload value, mode and duration. */
  lemma {:induction false} ClosedIsIterated(x: nat, n: nat, ar: bool, tldr: nat)
    requires x <= MAX && tldr <= MAX
    ensures Closed(x, n, ar, tldr) == Iterate(x, n, ar, tldr) <= MAX
  {
    hide Wrapped;
    if n > 0 {
      ClosedIsIterated(x, n - 1, ar, tldr);
      if ar {
        FirstWrapped(tldr);
        if x + n - 1 > MAX { NextWrapped(x + n - 1 - (MAX + 1), tldr); }
      }
    }
  }

  lemma ClosedUnfolds(x: nat, n: nat, ar: bool, tldr: nat)
    requires tldr <= MAX
    ensures x + n <= MAX ==> Closed(x, n, ar, tldr) == x + n
    ensures x + n > MAX ==> Closed(x, n, ar, tldr) == if ar then Wrapped(x + n - (MAX + 1), tldr) else MAX
  {
    hide Wrapped;
  }

  lemma FirstWrapped(tldr: nat)
    requires tldr <= MAX
    ensures Wrapped(0, tldr) == tldr
  {
  }

  lemma NextWrapped(n: nat, tldr: nat)
    requires tldr <= MAX
    ensures Wrapped(n + 1, tldr) == if Wrapped(n, tldr) == MAX then tldr else Wrapped(n, tldr) + 1
  {
    NextMod(n, MAX + 1 - tldr);
  }

  lemma {:induction false} IterateMore(x: nat, m: nat, n: nat, ar: bool, tldr: nat)
    ensures Iterate(x, m + n, ar, tldr) == Iterate(Iterate(x, m, ar, tldr), n, ar, tldr)
  {
    if n > 0 { IterateMore(x, m, n - 1, ar, tldr); }
  }

  // ---------------------------------------------------------------- the control register

  predicate Running(tclr: nat) { tclr % 2 == 1 }
  predicate AutoReload(tclr: nat) { tclr / 2 % 2 == 1 }
  predicate Prescaled(tclr: nat) { tclr / 32 % 2 == 1 }
  predicate Compares(tclr: nat) { tclr / 64 % 2 == 1 }

  function Halved(rate: nat, k: nat): nat { if k == 0 then rate else Halved(rate / 2, k - 1) }

  /** Ticks a second: the input clock, shifted down by the prescaler, at least 1. */
  function Rate(freq: nat, tclr: nat): (r: nat)
    ensures r > 0
  {
    var r := if Prescaled(tclr) then Halved(freq, tclr / 4 % 8 + 1) else freq;
    if r == 0 then 1 else r
  }

  /** The control register: start, auto-reload, three bits of prescaler ratio, prescaler, compare. */
  lemma ControlBits(tclr: nat)
    ensures Running(tclr) <==> Digit(tclr, 0) == 1
    ensures AutoReload(tclr) <==> Digit(tclr, 1) == 1
    ensures Prescaled(tclr) <==> Digit(tclr, 5) == 1
    ensures Compares(tclr) <==> Digit(tclr, 6) == 1
    ensures tclr / 4 % 8 == Digit(tclr, 2) + 2 * Digit(tclr, 3) + 4 * Digit(tclr, 4)
  {
    hide Digit, Pow2;
    Powers();
    DigitAt(tclr, 0);
    DigitAt(tclr, 1);
    DigitAt(tclr, 2);
    DigitAt(tclr, 3);
    DigitAt(tclr, 4);
    DigitAt(tclr, 5);
    DigitAt(tclr, 6);
    Octal(tclr / 4);
  }

  lemma Octal(x: nat)
    ensures x % 8 == x % 2 + 2 * (x / 2 % 2) + 4 * (x / 4 % 2)
  {
    var a := x / 2;
    var b := a / 2;
    RemainderOf(x, 4, b, x % 2 + 2 * (a % 2));
    RemainderOf(x, 8, b / 2, x % 2 + 2 * (a % 2) + 4 * (b % 2));
  }

  lemma {:induction false} HalvedIs(rate: nat, k: nat)
    ensures Halved(rate, k) * Pow2(k) <= rate < Halved(rate, k) * Pow2(k) + Pow2(k)
    decreases k
  {
    if k > 0 {
      HalvedIs(rate / 2, k - 1);
      Doubled(Halved(rate / 2, k - 1), Pow2(k - 1), rate);
    }
  }

  lemma Doubled(h: nat, p: nat, rate: nat)
    requires h * p <= rate / 2 < h * p + p
    ensures h * (2 * p) <= rate < h * (2 * p) + 2 * p
  {
    var x := h * p;
    assert h * (2 * p) == 2 * x;
  }

  /**
   * With prescaler ratio p the rate is the input clock divided by 2^(p + 1), rounded down, and never less than 1; the
   * input clock itself without.
   */
  lemma RateIs(freq: nat, tclr: nat)
    ensures Digit(tclr, 5) == 0 ==> Rate(freq, tclr) == if freq == 0 then 1 else freq
    ensures Digit(tclr, 5) == 1 ==>
              var d, r := Pow2(Digit(tclr, 2) + 2 * Digit(tclr, 3) + 4 * Digit(tclr, 4) + 1), Rate(freq, tclr);
              if freq < d then r == 1 else r * d <= freq < r * d + d
  {
    hide Digit, Halved, Pow2;
    ControlBits(tclr);
    var k := tclr / 4 % 8 + 1;
    HalvedIs(freq, k);
    var h, d := Halved(freq, k), Pow2(k);
    if h == 0 { assert h * d == 0; } else { MulMono(1, h, d); }
  }

  /** Ticks to the next event: the overflow, or a match still ahead. */
  function ToEvent(cur: nat, tclr: nat, tmar: nat): (n: nat)
    requires cur <= MAX
    ensures 1 <= n <= MAX + 1 - cur
    ensures Compares(tclr) && tmar > cur ==> n <= tmar - cur
  {
    if Compares(tclr) && cur < tmar < MAX + 1 then tmar - cur else MAX + 1 - cur
  }

  /** What a callback flags n ticks after the value was x. */
  predicate FlagsMatch(x: nat, n: nat, tclr: nat, tmar: nat) { Compares(tclr) && x <= tmar <= x + n }

  predicate FlagsOverflow(x: nat, n: nat) { x + n > MAX }

  /** Interrupt causes: 0 match, 1 overflow, 2 capture. */
  type Causes = set<nat>

  function CausesOf(val: nat): Causes
  {
    set i | i in {0, 1, 2} && HasCause(val, i)
  }

  predicate HasCause(val: nat, i: nat) { (if i == 0 then val else if i == 1 then val / 2 else val / 4) % 2 == 1 }

  /** Causes are the three low bits. */
  lemma CausesAre(val: nat, i: nat)
    ensures i in CausesOf(val) <==> i < 3 && Digit(val, i) == 1
  {
    hide Digit, Pow2;
    Powers();
    DigitAt(val, 0);
    DigitAt(val, 1);
    DigitAt(val, 2);
  }

  // ---------------------------------------------------------------- what has been counted

  /**
   * Since the present rate, mode and reload value came into force: when that was, the value then, the ticks
   * counted, and in how many separate spans of time they were counted.
   */
  datatype Count = Count(originNs: nat, base: nat, ticks: nat, folds: nat)

  /** The stored value is that of a counter that has made `k.ticks` ticks, and these lag by less than the spans. */
  predicate CountOk(k: Count, value: nat, lastNs: nat, rate: nat, ar: bool, tldr: nat)
  {
    && k.base <= MAX && k.originNs <= lastNs && (k.folds == 0 ==> k.originNs == lastNs)
    && value == Iterate(k.base, k.ticks, ar, tldr)
    && k.ticks <= Ticks(lastNs - k.originNs, rate) <= k.ticks + (if k.folds == 0 then 0 else k.folds - 1)
  }

  function CountOn(k: Count, d: nat, rate: nat): Count
  {
    k.(ticks := k.ticks + Ticks(d, rate), folds := k.folds + if d > 0 then 1 else 0)
  }

  lemma CountOnOk(k: Count, value: nat, lastNs: nat, now: nat, rate: nat, ar: bool, tldr: nat)
    requires CountOk(k, value, lastNs, rate, ar, tldr) && now >= lastNs
    ensures CountOk(CountOn(k, now - lastNs, rate), Iterate(value, Ticks(now - lastNs, rate), ar, tldr), now, rate, ar,
                    tldr)
  {
    hide Ticks;
    var d := now - lastNs;
    NoTicks(rate);
    TicksSplit(lastNs - k.originNs, d, rate);
    IterateMore(k.base, k.ticks, Ticks(d, rate), ar, tldr);
  }

  lemma NoTicks(rate: nat)
    ensures Ticks(0, rate) == 0
  {
  }

  lemma FreshCount(lastNs: nat, value: nat, rate: nat, ar: bool, tldr: nat)
    requires value <= MAX
    ensures CountOk(Count(lastNs, value, 0, 0), value, lastNs, rate, ar, tldr)
  {
    NoTicks(rate);
  }

  class Timer {
    const freq: nat
    const legacy: bool
    var irqstatus: Causes
    var irqenable: Causes
    var line: bool
    var tclr: nat
    var tldr: nat
    var tmar: nat
    var tcrrBase: nat
    var lastNs: nat
    var deadline: Option<nat>
    ghost var count: Count

    /** In range, and counted as it should be while it runs. */
    ghost predicate Sound()
      reads this
    {
      && tcrrBase <= MAX && tldr <= MAX && tmar <= MAX
      && (Running(tclr) ==> CountOk(count, tcrrBase, lastNs, Rate(freq, tclr), AutoReload(tclr), tldr))
    }

    /** And, exactly while it runs, armed for the next event. */
    ghost predicate Valid()
      reads this
    {
      Sound()
      && deadline == if Running(tclr) then Some(lastNs + Delay(ToEvent(tcrrBase, tclr, tmar), Rate(freq, tclr)))
                     else None
    }

    ghost predicate LineFollows()
      reads this
    {
      line == (irqstatus * irqenable != {})
    }

    constructor (freq: nat, legacy: bool, now: nat)
      ensures Valid() && LineFollows() && !Running(tclr) && this.freq == freq && this.legacy == legacy
      ensures irqstatus == {} && lastNs == now
    {
      this.freq, this.legacy := freq, legacy;
      irqstatus, irqenable, line := {}, {}, false;
      tclr, tldr, tmar, tcrrBase, lastNs, deadline := 0, 0, 0, 0, now, None;
      count := Count(now, 0, 0, 0);
    }

    /** The value read at `now`; the state is not touched. */
    function Current(now: nat): (v: nat)
      requires tcrrBase <= MAX && tldr <= MAX && now >= lastNs
      reads this
      ensures v <= MAX
      ensures v == if Running(tclr)
                   then Iterate(tcrrBase, Ticks(now - lastNs, Rate(freq, tclr)), AutoReload(tclr), tldr)
                   else tcrrBase
    {
      if !Running(tclr) then tcrrBase
      else
        var ticks := Ticks(now - lastNs, Rate(freq, tclr));
        ClosedIsIterated(tcrrBase, ticks, AutoReload(tclr), tldr);
        Closed(tcrrBase, ticks, AutoReload(tclr), tldr)
    }

    method UpdateIrq()
      modifies `line
      ensures LineFollows()
    {
      line := irqstatus * irqenable != {};
    }

    /** Re-arm for the next event, from the value read now. An overflow not yet flagged by `Tick` is forgotten. */
    method Schedule(now: nat)
      requires Sound() && now >= lastNs
      modifies `tcrrBase, `lastNs, `deadline, `count
      ensures Valid() && tcrrBase == old(Current(now))
      ensures lastNs == if Running(tclr) then now else old(lastNs)
      ensures count == if Running(tclr) then CountOn(old(count), now - old(lastNs), Rate(freq, tclr)) else old(count)
    {
      hide Iterate, Ticks, Delay, Rate, Closed, CountOk, CountOn, Running, AutoReload, Compares;
      if !Running(tclr) {
        deadline := None;
        return;
      }
      var cur := Current(now);
      var next := MAX + 1 - cur;
      if Compares(tclr) && tmar > cur {
        var toMatch := tmar - cur;
        if toMatch < next { next := toMatch; }
      }
      if next == 0 { next := 1; }
      CountOnOk(count, tcrrBase, lastNs, now, Rate(freq, tclr), AutoReload(tclr), tldr);
      count := CountOn(count, now - lastNs, Rate(freq, tclr));
      tcrrBase := cur;
      lastNs := now;
      deadline := Some(now + Delay(next, Rate(freq, tclr)));
    }

    /** The callback's first part: fold the ticks since the last time into the value and flag what they brought. */
    method Fold(now: nat)
      requires Sound() && now >= lastNs && Running(tclr)
      modifies `irqstatus, `tcrrBase, `lastNs, `tclr, `count
      ensures Sound() && tcrrBase == old(Current(now)) && lastNs == now
      ensures var x, n := old(tcrrBase), old(Ticks(now - lastNs, Rate(freq, tclr)));
              && irqstatus == old(irqstatus) + (if FlagsMatch(x, n, old(tclr), tmar) then {0} else {})
                              + (if FlagsOverflow(x, n) then {1} else {})
              && tclr == old(tclr) - if FlagsOverflow(x, n) && !AutoReload(old(tclr)) then 1 else 0
    {
      hide Iterate, Ticks, Delay, Rate, CountOk, CountOn, Wrapped, Compares, AutoReload, ToEvent, Closed;
      ClosedUnfolds(tcrrBase, Ticks(now - lastNs, Rate(freq, tclr)), AutoReload(tclr), tldr);
      var ticks := Ticks(now - lastNs, Rate(freq, tclr));
      var v := tcrrBase + ticks;
      ClosedIsIterated(tcrrBase, ticks, AutoReload(tclr), tldr);
      CountOnOk(count, tcrrBase, lastNs, now, Rate(freq, tclr), AutoReload(tclr), tldr);
      count := CountOn(count, now - lastNs, Rate(freq, tclr));
      if Compares(tclr) && tcrrBase <= tmar && v >= tmar {
        irqstatus := irqstatus + {0};
      }
      if v > MAX {
        irqstatus := irqstatus + {1};
        if AutoReload(tclr) {
          tcrrBase := Wrapped(v - (MAX + 1), tldr);
        } else {
          tcrrBase := MAX;
          tclr := tclr - 1;
        }
      } else {
        tcrrBase := v;
      }
      lastNs := now;
    }

    /**
     * The timer callback. The value read now stays what it was; an overflow or a match since the last time is
     * flagged, and a one-shot timer that overflowed stops.
     */
    method Tick(now: nat)
      requires Valid() && deadline.Some? && now >= lastNs
      modifies this
      ensures Valid() && LineFollows() && unchanged(`irqenable, `tldr, `tmar)
      ensures tcrrBase == old(Current(now)) && lastNs == now
      ensures var x, n := old(tcrrBase), old(Ticks(now - lastNs, Rate(freq, tclr)));
              && irqstatus == old(irqstatus) + (if FlagsMatch(x, n, old(tclr), tmar) then {0} else {})
                              + (if FlagsOverflow(x, n) then {1} else {})
              && tclr == old(tclr) - if FlagsOverflow(x, n) && !AutoReload(old(tclr)) then 1 else 0
    {
      hide Iterate, Ticks, Delay, Rate, CountOk, CountOn, Compares, AutoReload, Running, ToEvent;
      hide FlagsMatch, FlagsOverflow;
      Fold(now);
      UpdateIrq();
      NothingPasses(this, now);
      Schedule(now);
    }

    // -------------------------------------------------------------- register writes

    method WriteTclr(val: nat, now: nat)
      requires Valid() && now >= lastNs && val <= MAX
      modifies `tcrrBase, `lastNs, `tclr, `deadline, `count
      ensures Valid() && tclr == val && lastNs == now && tcrrBase == old(Current(now))
    {
      hide Iterate, Ticks, Delay, Rate, Closed, CountOk, CountOn, Running, AutoReload, Compares;
      tcrrBase := Current(now);
      lastNs := now;
      tclr := val;
      Restart(now);
    }

    method WriteTcrr(val: nat, now: nat)
      requires Valid() && now >= lastNs && val <= MAX
      modifies `tcrrBase, `lastNs, `deadline, `count
      ensures Valid() && lastNs == now && tcrrBase == val
    {
      hide Iterate, Ticks, Delay, Rate, Closed, CountOk, CountOn, Running, AutoReload, Compares;
      tcrrBase := val;
      lastNs := now;
      Restart(now);
    }

    /** Any write to the trigger register starts over from the reload value. */
    method WriteTtgr(now: nat)
      requires Valid() && now >= lastNs
      modifies `tcrrBase, `lastNs, `deadline, `count
      ensures Valid() && lastNs == now && tcrrBase == tldr
    {
      hide Iterate, Ticks, Delay, Rate, Closed, CountOk, CountOn, Running, AutoReload, Compares;
      tcrrBase := tldr;
      lastNs := now;
      Restart(now);
    }

    method WriteTmar(val: nat, now: nat)
      requires Valid() && now >= lastNs && val <= MAX
      modifies `tcrrBase, `lastNs, `tmar, `deadline, `count
      ensures Valid() && tmar == val && tcrrBase == old(Current(now))
      ensures lastNs == if Running(tclr) then now else old(lastNs)
    {
      tmar := val;
      Schedule(now);
    }

    /** The counter is not folded first, so ticks since then are counted with the new reload value. */
    method WriteTldr(val: nat)
      requires Valid() && val <= MAX
      modifies `tldr, `count
      ensures Valid() && tldr == val
    {
      hide Iterate, Ticks, Delay, Rate, CountOk, Running, AutoReload, Compares;
      tldr := val;
      count := Count(lastNs, tcrrBase, 0, 0);
      FreshCount(lastNs, tcrrBase, Rate(freq, tclr), AutoReload(tclr), tldr);
    }

    /** Count from the value just stored, and re-arm. */
    method Restart(now: nat)
      requires tcrrBase <= MAX && tldr <= MAX && tmar <= MAX && lastNs == now
      modifies `tcrrBase, `lastNs, `deadline, `count
      ensures Valid() && tcrrBase == old(tcrrBase) && lastNs == now
    {
      hide Iterate, Ticks, Delay, Rate, CountOk, CountOn, Running, AutoReload, Compares;
      count := Count(lastNs, tcrrBase, 0, 0);
      FreshCount(lastNs, tcrrBase, Rate(freq, tclr), AutoReload(tclr), tldr);
      NothingPasses(this, now);
      Schedule(now);
    }

    method SoftReset()
      requires Valid()
      modifies this
      ensures Valid() && LineFollows() && !line && !Running(tclr) && tcrrBase == tldr == tmar == 0
    {
      tclr, tcrrBase, tldr, tmar := 0, 0, 0, 0;
      irqstatus, irqenable := {}, {};
      deadline := None;
      UpdateIrq();
    }

    /** The reset of the whole device: the interrupt line keeps its level. */
    method Reset(now: nat)
      requires Valid() && now >= lastNs
      modifies this
      ensures Valid() && !Running(tclr) && irqstatus == {} && line == old(line)
    {
      irqstatus, irqenable := {}, {};
      tclr, tldr, tmar, tcrrBase, lastNs := 0, 0, 0, 0, now;
      deadline := None;
    }

    method WriteIrqStatusRaw(val: nat)
      modifies `irqstatus, `line
      ensures LineFollows() && irqstatus == old(irqstatus) + CausesOf(val)
    {
      irqstatus := irqstatus + CausesOf(val);
      UpdateIrq();
    }

    method WriteIrqStatus(val: nat)
      modifies `irqstatus, `line
      ensures LineFollows() && irqstatus == old(irqstatus) - CausesOf(val)
    {
      irqstatus := irqstatus - CausesOf(val);
      UpdateIrq();
    }

    /** In the legacy layout the enable register is written as a whole. */
    method WriteIrqEnableSet(val: nat)
      modifies `irqenable, `line
      ensures LineFollows() && irqenable == if legacy then CausesOf(val) else old(irqenable) + CausesOf(val)
    {
      irqenable := if legacy then CausesOf(val) else irqenable + CausesOf(val);
      UpdateIrq();
    }

    method WriteIrqEnableClr(val: nat)
      modifies `irqenable, `line
      ensures LineFollows() && irqenable == old(irqenable) - CausesOf(val)
    {
      irqenable := irqenable - CausesOf(val);
      UpdateIrq();
    }
  }

  /** Right after the value was stored, it is the value read. */
  lemma NothingPasses(t: Timer, now: nat)
    requires t.tcrrBase <= MAX && t.tldr <= MAX && now == t.lastNs
    ensures t.Current(now) == t.tcrrBase
    ensures CountOn(t.count, 0, Rate(t.freq, t.tclr)) == t.count
  {
    NoTicks(Rate(t.freq, t.tclr));
  }

  // ---------------------------------------------------------------- events and deadlines

  /** No overflow, and no match with a value ahead, happens before the deadline. */
  lemma QuietBeforeDeadline(t: Timer, now: nat)
    requires t.Valid() && t.deadline.Some? && t.lastNs <= now < t.deadline.value
    ensures var v := t.tcrrBase + Ticks(now - t.lastNs, Rate(t.freq, t.tclr));
            && v <= MAX && t.Current(now) == v
            && (Compares(t.tclr) && t.tmar > t.tcrrBase ==> v < t.tmar)
  {
    hide Iterate, Rate, Wrapped, CountOk;
    var n := ToEvent(t.tcrrBase, t.tclr, t.tmar);
    TicksBeforeDelay(now - t.lastNs, n, Rate(t.freq, t.tclr));
    ClosedIsIterated(t.tcrrBase, Ticks(now - t.lastNs, Rate(t.freq, t.tclr)), AutoReload(t.tclr), t.tldr);
  }

  /** While rate, mode and reload value stay, the value read lags an ideal counter by at most one tick a span. */
  lemma DriftBounded(t: Timer, now: nat)
    requires t.Valid() && Running(t.tclr) && now >= t.lastNs
    ensures var rate, ar := Rate(t.freq, t.tclr), AutoReload(t.tclr);
            var ticks, ideal := t.count.ticks + Ticks(now - t.lastNs, rate), Ticks(now - t.count.originNs, rate);
            && t.Current(now) == Iterate(t.count.base, ticks, ar, t.tldr)
            && ticks <= ideal <= ticks + t.count.folds
  {
    hide Iterate, Rate, Ticks, Closed;
    CountOnOk(t.count, t.tcrrBase, t.lastNs, now, Rate(t.freq, t.tclr), AutoReload(t.tclr), t.tldr);
  }

  // ---------------------------------------------------------------- callbacks exactly on time

  /** Ticks still missing after k callbacks, each exactly at its deadline, for an event n ticks away. */
  function Missing(n: nat, k: nat, rate: nat): (m: nat)
    requires rate > 0
    ensures m <= n
  {
    if k == 0 then n
    else
      var m := Missing(n, k - 1, rate);
      if Ticks(Delay(m, rate), rate) <= m then m - Ticks(Delay(m, rate), rate) else 0
  }

  /**
   * Deadlines are rounded down and a callback drops the fraction of a tick. So callbacks that come exactly on
   * time reach the event at once if the ticks to it take a whole number of nanoseconds, and otherwise never.
   */
  lemma {:induction false} OnTimeReachesExactly(n: nat, k: nat, rate: nat)
    requires 0 < rate <= 1_000_000_000 && n > 0 && k > 0
    ensures Missing(n, k, rate) == if n * 1_000_000_000 % rate == 0 then 0 else 1
  {
    TicksAtDelay(n, rate);
    if k == 1 {
      assert Missing(n, 0, rate) == n;
    } else {
      OnTimeReachesExactly(n, k - 1, rate);
      if n * 1_000_000_000 % rate == 0 {
        assert Ticks(Delay(0, rate), rate) == 0 by { ZeroDelay(rate); }
      } else {
        if 1_000_000_000 % rate == 0 { MultipleOf(n, rate); }
        TicksAtDelay(1, rate);
      }
    }
  }

  /** The next event is a match, not an overflow. */
  predicate MatchNext(cur: nat, tclr: nat, tmar: nat) { Compares(tclr) && cur < tmar <= MAX }

  /** The ticks to the next event take a whole number of nanoseconds. */
  predicate Whole(n: nat, rate: nat)
    requires rate > 0
  {
    n * 1_000_000_000 % rate == 0
  }

  /** n ticks before an event it is not flagged unless they all passed. */
  lemma EventStep(cur: nat, n: nat, ticks: nat, tclr: nat, tmar: nat)
    requires cur <= MAX && tmar <= MAX && n == ToEvent(cur, tclr, tmar) && n - 1 <= ticks <= n
    ensures ticks == n ==> if MatchNext(cur, tclr, tmar) then FlagsMatch(cur, n, tclr, tmar) else FlagsOverflow(cur, n)
    ensures ticks < n ==>
              && !FlagsOverflow(cur, ticks) && (MatchNext(cur, tclr, tmar) ==> !FlagsMatch(cur, ticks, tclr, tmar))
              && MatchNext(cur + ticks, tclr, tmar) == MatchNext(cur, tclr, tmar)
              && ToEvent(cur + ticks, tclr, tmar) == 1
  {
  }

  /** A callback exactly at its deadline flags the event, or leaves one tick to it. */
  method TickOnTime(t: Timer)
    requires t.Valid() && Running(t.tclr) && Rate(t.freq, t.tclr) <= 1_000_000_000
    modifies t
    ensures t.Valid() && t.tmar == old(t.tmar)
    ensures var n, rate := old(ToEvent(t.tcrrBase, t.tclr, t.tmar)), old(Rate(t.freq, t.tclr));
            var cause := if old(MatchNext(t.tcrrBase, t.tclr, t.tmar)) then 0 else 1;
            && (cause in t.irqstatus <==> cause in old(t.irqstatus) || Whole(n, rate))
            && (!Whole(n, rate) ==>
                  && t.tclr == old(t.tclr) && t.tcrrBase == old(t.tcrrBase) + n - Missing(n, 1, rate)
                  && ToEvent(t.tcrrBase, t.tclr, t.tmar) == Missing(n, 1, rate)
                  && MatchNext(t.tcrrBase, t.tclr, t.tmar) == old(MatchNext(t.tcrrBase, t.tclr, t.tmar)))
  {
    hide Iterate, Ticks, Delay, Rate, CountOk, Compares, AutoReload, Running, Missing, Wrapped, ToEvent, MatchNext;
    hide FlagsMatch, FlagsOverflow;
    var n, rate := ToEvent(t.tcrrBase, t.tclr, t.tmar), Rate(t.freq, t.tclr);
    TicksAtDelay(n, rate);
    OnTimeReachesExactly(n, 1, rate);
    EventStep(t.tcrrBase, n, Ticks(Delay(n, rate), rate), t.tclr, t.tmar);
    CountedOn(t, t.deadline.value);
    t.Tick(t.deadline.value);
  }

  /** Short of an overflow the value read is the stored one and the ticks since. */
  lemma CountedOn(t: Timer, now: nat)
    requires t.tcrrBase <= MAX && t.tldr <= MAX && now >= t.lastNs && Running(t.tclr)
    ensures var n := Ticks(now - t.lastNs, Rate(t.freq, t.tclr));
            !FlagsOverflow(t.tcrrBase, n) ==> t.Current(now) == t.tcrrBase + n
  {
    hide Iterate, Ticks, Rate, Wrapped;
    ClosedIsIterated(t.tcrrBase, Ticks(now - t.lastNs, Rate(t.freq, t.tclr)), AutoReload(t.tclr), t.tldr);
  }

  /**
   * k callbacks, each exactly at its deadline, the first of them n ticks before the event: it is flagged if and
   * only if n ticks are a whole number of nanoseconds; else one tick stays missing.
   */
  method RunOnTime(t: Timer, k: nat)
    requires t.Valid() && Running(t.tclr) && Rate(t.freq, t.tclr) <= 1_000_000_000 && k > 0
    modifies t
    ensures var n, rate := old(ToEvent(t.tcrrBase, t.tclr, t.tmar)), old(Rate(t.freq, t.tclr));
            var cause := if old(MatchNext(t.tcrrBase, t.tclr, t.tmar)) then 0 else 1;
            && (cause in t.irqstatus <==> cause in old(t.irqstatus) || Whole(n, rate))
            && (!Whole(n, rate) ==> t.tcrrBase == old(t.tcrrBase) + n - 1 && ToEvent(t.tcrrBase, t.tclr, t.tmar) == 1)
  {
    hide Iterate, Ticks, Delay, Rate, CountOk, Compares, AutoReload, Running, Missing, ToEvent, MatchNext;
    var n, rate := ToEvent(t.tcrrBase, t.tclr, t.tmar), Rate(t.freq, t.tclr);
    TickOnTime(t);
    OnTimeReachesExactly(n, 1, rate);
    if Whole(n, rate) { return; }
    OneTickNotWhole(n, rate);
    for i := 1 to k
      invariant t.Valid() && t.tclr == old(t.tclr) && t.tmar == old(t.tmar)
      invariant t.tcrrBase == old(t.tcrrBase) + n - 1 && ToEvent(t.tcrrBase, t.tclr, t.tmar) == 1
      invariant MatchNext(t.tcrrBase, t.tclr, t.tmar) == old(MatchNext(t.tcrrBase, t.tclr, t.tmar))
      invariant var cause := if old(MatchNext(t.tcrrBase, t.tclr, t.tmar)) then 0 else 1;
                cause in t.irqstatus <==> cause in old(t.irqstatus)
    {
      OnTimeReachesExactly(1, 1, rate);
      TickOnTime(t);
    }
  }

  lemma OneTickNotWhole(n: nat, rate: nat)
    requires 0 < rate && !Whole(n, rate)
    ensures !Whole(1, rate)
  {
    if 1_000_000_000 % rate == 0 { MultipleOf(n, rate); }
  }

  // ---------------------------------------------------------------- events forgotten and flagged twice

  /**
   * A match that a callback flagged is flagged again by the next callback, before any overflow, exactly when the
   * first one found the count still equal to the match value.
   */
  lemma MatchFlaggedTwiceExactly(x: nat, n: nat, n': nat, tclr: nat, tmar: nat)
    requires FlagsMatch(x, n, tclr, tmar) && !FlagsOverflow(x, n)
    ensures FlagsMatch(x + n, n', tclr, tmar) <==> x + n == tmar
  {
  }

  /** Two callbacks of the timer, the match flagged by the first and acknowledged in between. */
  method MatchTwice(t: Timer, now: nat, later: nat)
    requires t.Valid() && Running(t.tclr) && t.lastNs <= now <= later
    requires var n := Ticks(now - t.lastNs, Rate(t.freq, t.tclr));
             FlagsMatch(t.tcrrBase, n, t.tclr, t.tmar) && !FlagsOverflow(t.tcrrBase, n)
    modifies t
    ensures 0 in t.irqstatus <==> old(t.tcrrBase + Ticks(now - t.lastNs, Rate(t.freq, t.tclr))) == old(t.tmar)
  {
    hide Iterate, Ticks, Delay, Rate, CountOk, Compares, AutoReload, Running, FlagsMatch, FlagsOverflow, ToEvent;
    var n := Ticks(now - t.lastNs, Rate(t.freq, t.tclr));
    CountedOn(t, now);
    MatchFlaggedTwiceExactly(t.tcrrBase, n, Ticks(later - now, Rate(t.freq, t.tclr)), t.tclr, t.tmar);
    t.Tick(now);
    t.WriteIrqStatus(1);
    t.Tick(later);
  }

  /**
   * A control or match write, then a callback. Whatever overflowed before the write, the callback flags an overflow
   * exactly when the value the write left overflows after it.
   */
  method RearmThenTick(t: Timer, control: bool, val: nat, now: nat, later: nat)
    requires t.Valid() && Running(t.tclr) && t.lastNs <= now <= later && val <= MAX && t.irqstatus == {}
    requires control ==> Running(val)
    modifies t
    ensures var rate := Rate(t.freq, if control then val else old(t.tclr));
            1 in t.irqstatus <==> FlagsOverflow(old(t.Current(now)), Ticks(later - now, rate))
  {
    hide Iterate, Ticks, Delay, Rate, CountOk, Compares, AutoReload, Running, FlagsMatch, FlagsOverflow, ToEvent;
    if control {
      t.WriteTclr(val, now);
    } else {
      t.WriteTmar(val, now);
    }
    t.Tick(later);
  }

  /**
   * An overflow among the n ticks before a re-arming write would have been flagged by a callback n' ticks after it.
   * With the write it is not, exactly when the reloaded count has not overflowed again by then or, in one-shot
   * mode, when no tick has passed.
   */
  lemma OverflowForgottenExactly(x: nat, n: nat, n': nat, ar: bool, tldr: nat)
    requires x <= MAX && tldr <= MAX && FlagsOverflow(x, n)
    ensures FlagsOverflow(x, n + n')
    ensures !FlagsOverflow(Iterate(x, n, ar, tldr), n') <==>
              if ar then Wrapped(x + n - (MAX + 1), tldr) + n' <= MAX else n' == 0
  {
    hide Wrapped;
    ClosedIsIterated(x, n, ar, tldr);
  }

  // ---------------------------------------------------------------- what is flagged, and what the counter did

  /** Among the values after 0 to n ticks is v. */
  ghost predicate Reaches(x: nat, n: nat, ar: bool, tldr: nat, v: nat)
  {
    exists k: nat :: k <= n && Iterate(x, k, ar, tldr) == v
  }

  /** An overflow is flagged exactly when one of the n ticks was made from the top. */
  lemma OverflowFlaggedExactly(x: nat, n: nat, ar: bool, tldr: nat)
    requires x <= MAX && tldr <= MAX
    ensures FlagsOverflow(x, n) <==> n > 0 && Reaches(x, n - 1, ar, tldr, MAX)
  {
    hide Iterate, Wrapped;
    if FlagsOverflow(x, n) {
      ClosedIsIterated(x, MAX - x, ar, tldr);
      assert Iterate(x, MAX - x, ar, tldr) == MAX;
    } else if n > 0 {
      forall k: nat | k <= n - 1 ensures Iterate(x, k, ar, tldr) != MAX { ClosedIsIterated(x, k, ar, tldr); }
    }
  }

  /** A match is reached before the reload, or behind it. */
  lemma ReachesExactly(x: nat, n: nat, ar: bool, tldr: nat, tmar: nat)
    requires x <= MAX && tldr <= MAX && tmar <= MAX
    ensures Reaches(x, n, ar, tldr, tmar)
       <==> x <= tmar <= x + n || (ar && x + n > MAX && tldr <= tmar <= tldr + (x + n - (MAX + 1)))
  {
    hide Iterate, Wrapped;
    forall k: nat | k <= n && Iterate(x, k, ar, tldr) == tmar
      ensures x <= tmar <= x + n || (ar && x + n > MAX && tldr <= tmar <= tldr + (x + n - (MAX + 1)))
    {
      ClosedIsIterated(x, k, ar, tldr);
      if ar && x + k > MAX { WrappedAtMost(x + k - (MAX + 1), tldr); }
    }
    if x <= tmar <= x + n {
      ClosedIsIterated(x, tmar - x, ar, tldr);
      assert Iterate(x, tmar - x, ar, tldr) == tmar;
    } else if ar && x + n > MAX && tldr <= tmar <= tldr + (x + n - (MAX + 1)) {
      var k: nat := MAX + 1 - x + (tmar - tldr);
      ClosedIsIterated(x, k, ar, tldr);
      WrappedSoon(tmar - tldr, tldr);
      assert Iterate(x, k, ar, tldr) == tmar;
    }
  }

  lemma WrappedAtMost(n: nat, tldr: nat)
    requires tldr <= MAX
    ensures Wrapped(n, tldr) <= tldr + n
  {
  }

  lemma WrappedSoon(n: nat, tldr: nat)
    requires tldr + n <= MAX
    ensures Wrapped(n, tldr) == tldr + n
  {
    SmallMod(n, MAX + 1 - tldr);
  }

  lemma SmallMod(n: nat, p: nat)
    requires n < p
    ensures n % p == n
  {
    RemainderOf(n, p, 0, n);
  }

  /**
   * What is flagged as a match was one. A match the counter reached is not flagged exactly when it was reached only
   * behind a reload, with the stored value already past it.
   */
  lemma MatchMissedExactly(x: nat, n: nat, tclr: nat, tldr: nat, tmar: nat)
    requires x <= MAX && tldr <= MAX && tmar <= MAX && Compares(tclr)
    ensures FlagsMatch(x, n, tclr, tmar) ==> Reaches(x, n, AutoReload(tclr), tldr, tmar)
    ensures Reaches(x, n, AutoReload(tclr), tldr, tmar) && !FlagsMatch(x, n, tclr, tmar)
       <==> AutoReload(tclr) && FlagsOverflow(x, n) && tldr <= tmar < x && tmar <= tldr + (x + n - (MAX + 1))
  {
    hide Reaches, AutoReload, Compares;
    ReachesExactly(x, n, AutoReload(tclr), tldr, tmar);
  }

  /** A timer that counts nanoseconds from `tcrr`, reloads `tldr` and compares with `tmar`. */
  method Started(tcrr: nat, tmar: nat, tldr: nat) returns (t: Timer)
    requires tcrr <= MAX && tmar <= MAX && tldr <= MAX
    ensures fresh(t) && t.Valid() && t.freq == 1_000_000_000 && t.tclr == 67 && t.lastNs == 0 && t.irqstatus == {}
    ensures t.tcrrBase == tcrr && t.tldr == tldr && t.tmar == tmar
  {
    hide Iterate, Ticks, Delay, Rate, CountOk, ToEvent;
    t := new Timer(1_000_000_000, false, 0);
    t.WriteTclr(67, 0);
    t.WriteTmar(tmar, 0);
    t.WriteTcrr(tcrr, 0);
    t.WriteTldr(tldr);
  }

  lemma Nanoseconds(d: nat)
    ensures Rate(1_000_000_000, 67) == 1_000_000_000 && Ticks(d, 1_000_000_000) == Delay(d, 1_000_000_000) == d
    ensures Running(67) && AutoReload(67) && Compares(67)
  {
  }

  /** An overflow at 1 ns, a match write at 10 ns, the callback for the match on time: only that is flagged. */
  method OverflowForgottenRun() returns (t: Timer)
    ensures t.irqstatus == {0}
  {
    hide Iterate, Ticks, Delay, Rate, CountOk, Running, Compares, AutoReload;
    Nanoseconds(10);
    Nanoseconds(11);
    t := Started(MAX, 5, 0);
    ClosedIsIterated(MAX, 10, true, 0);
    t.WriteTmar(20, 10);
    assert t.tcrrBase == 9;
    t.Tick(t.deadline.value);
  }

  /** A match flagged exactly on time and acknowledged is flagged again by the next callback, also on time. */
  method MatchTwiceRun() returns (t: Timer)
    ensures t.irqstatus == {0, 1}
  {
    hide Iterate, Ticks, Delay, Rate, CountOk, Running, Compares, AutoReload;
    Nanoseconds(10);
    Nanoseconds(MAX + 1 - 10);
    t := Started(0, 10, 0);
    CountedOn(t, 10);
    t.Tick(t.deadline.value);
    assert t.tcrrBase == 10 && t.irqstatus == {0};
    t.WriteIrqStatus(1);
    t.Tick(t.deadline.value);
  }

  /** A callback 7 ns late: after 6 ns the counter was at the match value, but only the overflow is flagged. */
  method MatchMissedRun() returns (t: Timer)
    ensures t.irqstatus == {1} && t.tcrrBase == 12
    ensures Reaches(MAX, 8, true, 5, 10)
  {
    hide Iterate, Ticks, Delay, Rate, CountOk, Running, Compares, AutoReload, Reaches;
    Nanoseconds(8);
    t := Started(MAX, 10, 5);
    ClosedIsIterated(MAX, 8, true, 5);
    ReachesExactly(MAX, 8, true, 5, 10);
    t.Tick(8);
  }

  lemma ZeroDelay(rate: nat)
    requires rate > 0
    ensures Delay(0, rate) == 0
  {
  }

  lemma MultipleOf(n: nat, rate: nat)
    requires rate > 0 && 1_000_000_000 % rate == 0
    ensures n * 1_000_000_000 % rate == 0
  {
    var q := 1_000_000_000 / rate;
    assert n * 1_000_000_000 == (n * q) * rate;
    Quotient(n * 1_000_000_000, rate, n * q);
  }

  /** At 38.4 MHz that is so exactly for every 24th count, at 32768 Hz for every 64th. */
  lemma OnTimeAtTheBoardsRates(n: nat)
    ensures n * 1_000_000_000 % 38_400_000 == 0 <==> n % 24 == 0
    ensures n * 1_000_000_000 % 32768 == 0 <==> n % 64 == 0
  {
    var m := n * 1_000_000_000 / 38_400_000;
    if n * 1_000_000_000 == 38_400_000 * m { MultipleBy(n, 24, m - 26 * n); }
    if n % 24 == 0 { MultipleBy(n * 1_000_000_000, 38_400_000, 625 * (n / 24)); }
    var k := n * 1_000_000_000 / 32768;
    if n * 1_000_000_000 == 32768 * k { MultipleBy(n, 64, 45 * k - 1373291 * n); }
    if n % 64 == 0 { MultipleBy(n * 1_000_000_000, 32768, 1953125 * (n / 64)); }
  }

  lemma MultipleBy(a: nat, b: nat, q: int)
    requires b > 0 && a == b * q
    ensures a % b == 0
  {
    if q < 0 { NegativeProduct(b, q); }
    Quotient(a, b, q);
  }

  lemma NegativeProduct(b: nat, q: int)
    requires b > 0 && q < 0
    ensures b * q < 0
  {
  }
}
