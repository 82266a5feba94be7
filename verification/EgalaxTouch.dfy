/** One contact of the touch controller: presses are held for a while so that a slow reader notices them. */
module EgalaxTouch {
  import opened Wrappers

  const REPEAT_NS := 10_000_000
  const HOLD_NS := 1_500_000_000

  /** The button, what was last acted on, a release put off, the time of the press, and the repeat timer. */
  datatype Contact = Contact(pressed: bool, lastSent: bool, moved: bool, pending: bool, pressNs: int,
                             timer: Option<int>)

  /** What is reported, and when presses begin. */
  datatype Entry = Press(at: int) | Down(at: int) | Up(at: int)

  datatype Step = Step(contact: Contact, log: seq<Entry>)

  const UNTOUCHED := Contact(false, false, false, false, 0, None)

  function Release(c: Contact, now: int): Step
  {
    Step(c.(pending := false, timer := None), [Up(now)])
  }

  function Button(c: Contact, down: bool): Contact { c.(pressed := down) }

  function Sync(c: Contact, now: int): Step
  {
    if c.pressed != c.lastSent then
      var d := c.(lastSent := c.pressed, moved := false);
      if c.pressed
      then Step(d.(pending := false, pressNs := now, timer := Some(now + REPEAT_NS)), [Press(now), Down(now)])
      else if now - c.pressNs >= HOLD_NS then Release(d, now)
      else Step(d.(pending := true), [])
    else Step(c.(moved := false), if c.pressed && c.moved then [Down(now)] else [])
  }

  /** The repeat timer has run out; `unread` frames keep it from adding more. */
  function Repeat(c: Contact, now: int, unread: bool): Step
  {
    var d := c.(timer := None);
    if c.pending && now - c.pressNs >= HOLD_NS then Release(d, now)
    else if !c.pressed && !c.pending then Step(d, [])
    else Step(d.(timer := Some(now + REPEAT_NS)), if unread then [] else [Down(now)])
  }

  // ---------------------------------------------------------------- runs

  /**
   * What befalls the contact: the button turns, the position changes, the input layer ends a batch of these, or the
   * timer, if it is set, runs out.
   */
  datatype Event = Turned(down: bool) | Moved | Synced(now: int) | TimerRan(now: int, unread: bool)

  function Next(c: Contact, e: Event): Step
  {
    match e
    case Turned(down) => Step(Button(c, down), [])
    case Moved => Step(c.(moved := true), [])
    case Synced(now) => Sync(c, now)
    case TimerRan(now, unread) => if c.timer.Some? then Repeat(c, now, unread) else Step(c, [])
  }

  function Run(evs: seq<Event>): Step
    decreases |evs|
  {
    if evs == [] then Step(UNTOUCHED, [])
    else
      var before := Run(evs[..|evs| - 1]);
      var s := Next(before.contact, evs[|evs| - 1]);
      Step(s.contact, before.log + s.log)
  }

  /** A press was acted on and its release was not, or was put off. */
  predicate Held(c: Contact) { c.lastSent || c.pending }

  /** The timer runs out while the button is up again and nobody has acted on that yet. */
  predicate Misses(c: Contact, e: Event) { e.TimerRan? && c.timer.Some? && c.lastSent && !c.pressed }

  predicate Presses(c: Contact, e: Event) { e.Synced? && c.pressed && !c.lastSent }

  /** That has happened since the latest press. */
  predicate Missed(evs: seq<Event>)
    decreases |evs|
  {
    evs != [] &&
    var before, e := evs[..|evs| - 1], evs[|evs| - 1];
    var c := Run(before).contact;
    !Presses(c, e) && (Misses(c, e) || Missed(before))
  }

  /** The last press or release. */
  function LastEdge(log: seq<Entry>): Option<Entry>
    decreases |log|
  {
    if log == [] then None
    else
      var e := log[|log| - 1];
      if e.Down? then LastEdge(log[..|log| - 1]) else Some(e)
  }

  /**
   * "Down" and "up" are only reported during a press: never before the first or between an "up" and the next
   * press. And every "up" comes at least 1.5 s after the latest press.
   */
  predicate Proper(log: seq<Entry>)
    decreases |log|
  {
    log == [] ||
    var before, e := log[..|log| - 1], log[|log| - 1];
    && Proper(before)
    && (!e.Press? ==>
          && LastEdge(before).Some? && LastEdge(before).value.Press?
          && (e.Up? ==> e.at - LastEdge(before).value.at >= HOLD_NS))
  }

  lemma ProperMore(log: seq<Entry>, e: Entry)
    ensures Proper(log + [e]) <==>
              && Proper(log)
              && (!e.Press? ==>
                    && LastEdge(log).Some? && LastEdge(log).value.Press?
                    && (e.Up? ==> e.at - LastEdge(log).value.at >= HOLD_NS))
    ensures LastEdge(log + [e]) == if e.Down? then LastEdge(log) else Some(e)
  {
    assert (log + [e])[..|log|] == log;
  }

  /** A press is under way, or its release is put off, exactly when the last edge is that press. */
  predicate Inv(s: Step, missed: bool)
  {
    var c := s.contact;
    && !(c.lastSent && c.pending)
    && (c.timer.Some? <==> Held(c) && !missed)
    && Proper(s.log)
    && (Held(c) <==> LastEdge(s.log).Some? && LastEdge(s.log).value.Press?)
    && (Held(c) ==> LastEdge(s.log).value.at == c.pressNs)
  }

  lemma NextKeeps(s: Step, e: Event, missed: bool)
    requires Inv(s, missed)
    ensures var t := Next(s.contact, e);
            Inv(Step(t.contact, s.log + t.log), !Presses(s.contact, e) && (Misses(s.contact, e) || missed))
  {
    hide Proper, LastEdge;
    var t := Next(s.contact, e);
    assert s.log + [] == s.log;
    if t.log != [] {
      ProperMore(s.log, t.log[0]);
      if |t.log| == 1 {
        assert t.log == [t.log[0]];
      } else {
        ProperMore(s.log + [t.log[0]], t.log[1]);
        assert s.log + [t.log[0]] + [t.log[1]] == s.log + t.log;
      }
    }
  }

  lemma {:induction false} RunInv(evs: seq<Event>)
    ensures Inv(Run(evs), Missed(evs))
    decreases |evs|
  {
    hide Inv, Next, Proper, Misses, Presses;
    if evs == [] {
      NothingHappened();
    } else {
      RunInv(evs[..|evs| - 1]);
      NextKeeps(Run(evs[..|evs| - 1]), evs[|evs| - 1], Missed(evs[..|evs| - 1]));
    }
  }

  lemma NothingHappened()
    ensures Inv(Step(UNTOUCHED, []), false)
  {
  }

  // ---------------------------------------------------------------- when the timer is lost

  /**
   * Over every run, whatever its order: the reports are proper, and a contact that is held or still to be released
   * has no timer exactly when, since its press, the timer ran out between the button going up and the batch that
   * acts on it. No other contact has one.
   */
  lemma TimerLostExactly(evs: seq<Event>)
    ensures var s := Run(evs);
            && Proper(s.log)
            && (Held(s.contact) ==> (s.contact.timer.None? <==> Missed(evs)))
            && (!Held(s.contact) ==> s.contact.timer.None?)
  {
    RunInv(evs);
  }

  /** A release put off without a timer is forgotten: nothing is reported any more before the next press. */
  lemma ForgottenUntilPressed(c: Contact, e: Event)
    requires c.pending && !c.lastSent && c.timer.None? && !Presses(c, e)
    ensures var s := Next(c, e); s.contact.pending && !s.contact.lastSent && s.contact.timer.None? && s.log == []
  {
  }

  /** Two ways there: a click whose sync comes late, and a button that is down again before it comes. */
  lemma LostExamples(t: int)
    ensures var evs := [Turned(true), Synced(t), Turned(false), TimerRan(t + REPEAT_NS, false)];
            && (var c := Run(evs + [Synced(t + REPEAT_NS)]).contact; c.pending && c.timer.None?)
            && (var c := Run(evs + [Turned(true), Synced(t + REPEAT_NS)]).contact;
                c.pressed && c.lastSent && c.timer.None?)
  {
    hide Run, Next;
    var up, down, now := Turned(false), Turned(true), Synced(t + REPEAT_NS);
    var evs := [down, Synced(t), up, TimerRan(t + REPEAT_NS, false)];
    Clicked(t);
    RunMore(evs, now);
    RunMore(evs, down);
    RunMore(evs + [down], now);
    assert evs + [down, now] == evs + [down] + [now];
    LateSync(Run(evs).contact, t);
  }

  lemma Clicked(t: int)
    ensures var c := Run([Turned(true), Synced(t), Turned(false), TimerRan(t + REPEAT_NS, false)]).contact;
            !c.pressed && c.lastSent && !c.pending && c.pressNs == t && c.timer.None?
  {
    var a, b, c, d := Turned(true), Synced(t), Turned(false), TimerRan(t + REPEAT_NS, false);
    RunMore([], a);
    RunMore([a], b);
    RunMore([a, b], c);
    RunMore([a, b, c], d);
    assert [] + [a] == [a] && [a] + [b] == [a, b] && [a, b] + [c] == [a, b, c] && [a, b, c] + [d] == [a, b, c, d];
    hide Run;
  }

  lemma LateSync(c: Contact, t: int)
    requires !c.pressed && c.lastSent && !c.pending && c.pressNs == t && c.timer.None?
    ensures var d := Next(c, Synced(t + REPEAT_NS)).contact; d.pending && d.timer.None?
    ensures var d := Next(Next(c, Turned(true)).contact, Synced(t + REPEAT_NS)).contact;
            d.pressed && d.lastSent && d.timer.None?
  {
  }

  lemma RunMore(evs: seq<Event>, e: Event)
    ensures var t := Next(Run(evs).contact, e); Run(evs + [e]) == Step(t.contact, Run(evs).log + t.log)
  {
    assert (evs + [e])[..|evs|] == evs;
  }

  // ---------------------------------------------------------------- a click, a drag

  /**
   * A click: the press is reported at once; the release too if it comes 1.5 s later or more, else by the first run of
   * the timer so late. Before that every run reports the contact again unless a report still waits, 10 ms apart.
   */
  lemma ClickIsHeld(t: int, u: int, v: int, unread: bool)
    ensures var r := Run([Turned(true), Synced(t), Turned(false), Synced(u)]);
            if u - t >= 1_500_000_000 then r.log == [Press(t), Down(t), Up(u)] && r.contact.timer.None?
            else r.log == [Press(t), Down(t)] && r.contact.timer == Some(t + 10_000_000)
    ensures u - t < 1_500_000_000 ==>
              var r := Run([Turned(true), Synced(t), Turned(false), Synced(u), TimerRan(v, unread)]);
              if v - t >= 1_500_000_000 then r.log == [Press(t), Down(t), Up(v)] && r.contact.timer.None?
              else
                && r.log == [Press(t), Down(t)] + (if unread then [] else [Down(v)])
                && r.contact.timer == Some(v + 10_000_000)
  {
    hide Run;
    var a, b, c, d, e := Turned(true), Synced(t), Turned(false), Synced(u), TimerRan(v, unread);
    Untouched();
    RunMore([], a);
    RunMore([a], b);
    RunMore([a, b], c);
    RunMore([a, b, c], d);
    RunMore([a, b, c, d], e);
    assert [] + [a] == [a] && [a] + [b] == [a, b] && [a, b] + [c] == [a, b, c] && [a, b, c] + [d] == [a, b, c, d];
    assert [a, b, c, d] + [e] == [a, b, c, d, e];
  }

  lemma Untouched()
    ensures Run([]) == Step(UNTOUCHED, [])
  {
  }

  /** While the button is down a change of position is reported once, by the next batch. */
  lemma DragReported(c: Contact, now: int, later: int)
    requires c.pressed && c.lastSent
    ensures var s := Next(Next(c, Moved).contact, Synced(now));
            && s.log == [Down(now)] && Next(s.contact, Synced(later)).log == [] && s.contact.timer == c.timer
  {
  }

  // ---------------------------------------------------------------- the button acted on at once

  /** Nothing comes between the button turning and the batch that acts on it. */
  predicate AtOnce(evs: seq<Event>)
  {
    forall i :: 0 <= i < |evs| - 1 && evs[i].Turned? ==> evs[i + 1].Synced?
  }

  lemma {:induction false} NeverMissed(evs: seq<Event>)
    requires AtOnce(evs)
    ensures !Missed(evs)
    ensures (evs != [] && evs[|evs| - 1].Turned?) || Run(evs).contact.pressed == Run(evs).contact.lastSent
    decreases |evs|
  {
    if evs != [] { NeverMissed(evs[..|evs| - 1]); }
  }

  /**
   * Over every run with button and sync as one step the reports are proper, and a contact that is pressed or still
   * to be released, and only such a one, has its timer set: a release is never forgotten.
   */
  lemma RunHolds(evs: seq<Event>)
    requires AtOnce(evs) && (evs != [] ==> !evs[|evs| - 1].Turned?)
    ensures var s := Run(evs);
            Proper(s.log) && (s.contact.timer.Some? <==> s.contact.pressed || s.contact.pending)
  {
    NeverMissed(evs);
    RunInv(evs);
  }
}
