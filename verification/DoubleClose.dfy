/**
 * The receiver closes its file at every END. When a transfer can send a second END, after which the closed file is
 * closed again.
 */
module DoubleClose {
  import opened Bytes
  import opened Transfer
  import opened TransferTheorems

  /** More ENDs have been sent or are due than one. */
  predicate Surplus(l: Link) {
    EndsSent(l) + Due(l) >= 2
  }

  /** Events of the transfer itself. */
  predicate OwnEvents(events: seq<Event>) {
    forall e <- events :: !e.Other?
  }

  lemma OwnKeepsSum(l: Link, e: Event)
    requires Inv(l) && Enabled(l, e) && !e.Other?
    ensures var t := Step(l, e); Inv(t) && EndsSent(t) + Due(t) <= EndsSent(l) + Due(l) && t.extra == l.extra
  {
    StepKeepsInv(l, e);
    match e {
      case WriteComplete(tail, now) => SentCounted(l, tail, now);
      case Drain => DrainKeepsInv(l);
      case Deliver(junk) => DeliveredKeepsInv(l, junk);
    }
    hide Inv, Due, EndsSent;
  }

  lemma {:induction false} OwnRun(l: Link, events: seq<Event>)
    requires Inv(l) && Possible(l, events) && OwnEvents(events)
    ensures var r := Run(l, events); Inv(r) && EndsSent(r) + Due(r) <= EndsSent(l) + Due(l) && r.extra == l.extra
    decreases |events|
  {
    hide Inv, Due, EndsSent, Step, Enabled;
    if events != [] {
      OwnKeepsSum(l, events[0]);
      OwnRun(Step(l, events[0]), events[1..]);
    }
  }

  lemma CrashedIsSurplus(l: Link)
    requires Inv(l) && l.receiver.crashed
    ensures Surplus(l)
  {
  }

  lemma OverIsCrashed(l: Link)
    requires Inv(l) && Over(l) && Surplus(l)
    ensures l.receiver.crashed
  {
  }

  /** Left to itself the transfer can close the file twice. */
  ghost predicate CanCloseTwice(l: Link) {
    exists more :: Possible(l, more) && OwnEvents(more) && Run(l, more).receiver.crashed
  }

  /** The exact condition in any state that a transfer can reach. */
  lemma CanCloseTwiceIff(l: Link)
    requires Inv(l)
    ensures CanCloseTwice(l) <==> Surplus(l)
  {
    hide Inv, Due, EndsSent, Over;
    if Surplus(l) {
      var more := Complete(l);
      OverIsCrashed(Run(l, more));
    }
    if more :| Possible(l, more) && OwnEvents(more) && Run(l, more).receiver.crashed {
      OwnRun(l, more);
      CrashedIsSurplus(Run(l, more));
    }
  }

  // ---- Where a surplus comes from -------------------------------------------------------------------------

  lemma OtherSum(l: Link, now: bool)
    requires Inv(l) && Enabled(l, Other(now)) && Alone(l)
    ensures Surplus(Step(l, Other(now)))
  {
    OtherKeepsInv(l, now);
  }

  /** Some other message was sent while the callback was installed and no output was pending. */
  predicate SentAlone(l: Link, events: seq<Event>)
    requires Possible(l, events)
    decreases |events|
  {
    events != [] && ((events[0].Other? && Alone(l)) || SentAlone(Step(l, events[0]), events[1..]))
  }

  /** At some point of the run the transfer, left to itself from there, could have closed the file twice. */
  ghost predicate AtSomePoint(l: Link, events: seq<Event>)
    requires Possible(l, events)
    decreases |events|
  {
    CanCloseTwice(l) || (events != [] && AtSomePoint(Step(l, events[0]), events[1..]))
  }

  lemma StepSurplus(l: Link, e: Event)
    requires Inv(l) && Enabled(l, e) && !Surplus(l)
    ensures Surplus(Step(l, e)) <==> e.Other? && Alone(l)
  {
    if e.Other? {
      OtherKeepsInv(l, e.now);
    } else {
      OwnKeepsSum(l, e);
    }
    hide EndsSent, Due;
  }

  lemma {:induction false} SurplusIff(l: Link, events: seq<Event>)
    requires Inv(l) && Possible(l, events) && !Surplus(l)
    ensures AtSomePoint(l, events) <==> SentAlone(l, events)
    decreases |events|
  {
    hide Inv, Surplus, Step, Enabled, CanCloseTwice, Alone;
    CanCloseTwiceIff(l);
    if events != [] {
      var e, t := events[0], Step(l, events[0]);
      StepKeepsInv(l, e);
      StepSurplus(l, e);
      if Surplus(t) {
        CanCloseTwiceIff(t);
      } else {
        SurplusIff(t, events[1..]);
      }
    }
  }

  /**
   * In a run with any other traffic there is a point from which the transfer alone can go on to close the file twice
   * if and only if some other message was sent while the callback was installed and no output was pending.
   */
  lemma DoubleCloseIff(file: seq<Byte>, x: Setting, events: seq<Event>)
    requires Possible(Begin(file, x), events)
    ensures AtSomePoint(Begin(file, x), events) <==> SentAlone(Begin(file, x), events)
  {
    BeginInv(file, x);
    StartsWithout(file, x);
    SurplusIff(Begin(file, x), events);
  }

  lemma StartsWithout(file: seq<Byte>, x: Setting)
    ensures !Surplus(Begin(file, x)) && Begin(file, x).sender.armed && Begin(file, x).extra == 0
  {
    BeginInv(file, x);
  }

  /** One heartbeat while the callback is installed is enough, whatever the file. */
  lemma HeartbeatClosesTwice(file: seq<Byte>, x: Setting) returns (before: seq<Event>, after: seq<Event>)
    ensures OwnEvents(before) && OwnEvents(after)
    ensures var events := before + [Other(true)] + after;
            Possible(Begin(file, x), events) && Run(Begin(file, x), events).receiver.crashed
  {
    var l := Begin(file, x);
    BeginInv(file, x);
    StartsWithout(file, x);
    before := if l.pending then [Drain] else [];
    var d := if l.pending then Step(l, Drain) else l;
    if l.pending {
      DrainKeepsInv(l);
    }
    var t := Step(d, Other(true));
    OtherSum(d, true);
    StepKeepsInv(d, Other(true));
    after := Complete(t);
    OverIsCrashed(Run(t, after));
    RunFirst(d, Other(true), after);
    if l.pending {
      RunFirst(l, Drain, [Other(true)] + after);
      assert before + [Other(true)] + after == [Drain] + ([Other(true)] + after);
    } else {
      assert before + [Other(true)] + after == [Other(true)] + after;
    }
    hide Inv, Run, Step, Possible;
  }
}
