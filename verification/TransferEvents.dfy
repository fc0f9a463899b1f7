/** Which events of a transfer can happen, told from those that have happened. */
module TransferEvents {
  import opened Bytes
  import opened Transfer
  import opened TransferPieces

  /** The callbacks that have been made, and the messages of the transfer that have been handled. */
  function Completed(events: seq<Event>): nat {
    if events == [] then 0
    else Completed(events[..|events| - 1]) + if events[|events| - 1].WriteComplete? then 1 else 0
  }

  function Delivered(events: seq<Event>): nat {
    if events == [] then 0
    else Delivered(events[..|events| - 1]) + if events[|events| - 1].Deliver? then 1 else 0
  }

  /** Something is sent, and it can be written at once if no output is pending. */
  predicate SendsNow(e: Event) {
    (e.WriteComplete? && e.now) || (e.Other? && e.now)
  }

  predicate SendsLater(e: Event) {
    (e.WriteComplete? && !e.now) || (e.Other? && !e.now)
  }

  /** Since output was last written out, or the transfer began, something has been sent that could not be written. */
  predicate Pending(x: Setting, events: seq<Event>) {
    if events == [] then !x.now
    else
      var e := events[|events| - 1];
      !e.Drain? && (SendsLater(e) || Pending(x, events[..|events| - 1]))
  }

  /** The callbacks due so far: one for each write that was completed while there was more to read. */
  function Owed(file: seq<Byte>, x: Setting, events: seq<Event>): nat {
    if events == [] then (if x.now then 1 else 0)
    else
      var init, e := events[..|events| - 1], events[|events| - 1];
      Owed(file, x, init)
      + if Reading(file, Completed(events)) && (e.Drain? || (SendsNow(e) && !Pending(x, init))) then 1 else 0
  }

  /** The patch_len of message n. */
  function Length(file: seq<Byte>, n: nat): nat {
    if Reading(file, n) then Share(file, n) else 0
  }

  predicate StateIs(file: seq<Byte>, x: Setting, events: seq<Event>, l: Link) {
    && l.pending == Pending(x, events)
    && l.queued == Owed(file, x, events) - Completed(events)
    && l.sender == SenderAt(file, Completed(events))
    && |l.wire| + Delivered(events) == 1 + Completed(events)
    && forall j :: 0 <= j < |l.wire| ==> MemoryNeeded(l.wire[j]) == Length(file, Delivered(events) + j)
  }

  lemma Unfold(file: seq<Byte>, x: Setting, events: seq<Event>, e: Event)
    ensures var all := events + [e];
            Completed(all) == Completed(events) + (if e.WriteComplete? then 1 else 0)
            && Delivered(all) == Delivered(events) + (if e.Deliver? then 1 else 0)
            && (Pending(x, all) <==> !e.Drain? && (SendsLater(e) || Pending(x, events)))
            && Owed(file, x, all) ==
               Owed(file, x, events)
               + if Reading(file, Completed(all)) && (e.Drain? || (SendsNow(e) && !Pending(x, events))) then 1 else 0
  {
    assert (events + [e])[..|events|] == events;
  }

  lemma BeginIs(file: seq<Byte>, x: Setting)
    ensures StateIs(file, x, [], Begin(file, x))
  {
    OpenedIs(file, x.tail);
    hide CString;
  }

  lemma StepIs(file: seq<Byte>, x: Setting, events: seq<Event>, l: Link, e: Event)
    requires StateIs(file, x, events, l) && Enabled(l, e)
    ensures StateIs(file, x, events + [e], Step(l, e))
  {
    hide Completed, Delivered, Owed, Pending, CString, Accept, Continue, Share;
    Unfold(file, x, events, e);
    if e.WriteComplete? {
      ContinueIs(file, Completed(events), e.tail);
    }
  }

  lemma {:induction false} OneMore(l: Link, events: seq<Event>, e: Event)
    ensures Possible(l, events + [e]) <==> Possible(l, events) && Enabled(Run(l, events), e)
    ensures Possible(l, events + [e]) ==> Run(l, events + [e]) == Step(Run(l, events), e)
    decreases |events|
  {
    hide Step, Enabled;
    var all := events + [e];
    if events == [] {
      assert all == [e] && all[1..] == [];
    } else {
      assert all[0] == events[0] && all[1..] == events[1..] + [e];
      if Enabled(l, events[0]) {
        OneMore(Step(l, events[0]), events[1..], e);
      }
    }
  }

  lemma {:induction false} RunIs(file: seq<Byte>, x: Setting, events: seq<Event>)
    requires Possible(Begin(file, x), events)
    ensures StateIs(file, x, events, Run(Begin(file, x), events))
  {
    hide StateIs, Step, Enabled, Begin;
    if events == [] {
      BeginIs(file, x);
    } else {
      var init, e := events[..|events| - 1], events[|events| - 1];
      assert events == init + [e];
      OneMore(Begin(file, x), init, e);
      RunIs(file, x, init);
      StepIs(file, x, init, Run(Begin(file, x), init), e);
    }
  }

  predicate CanHappen(file: seq<Byte>, x: Setting, events: seq<Event>, e: Event) {
    match e
    case WriteComplete(_, _) => Completed(events) < Owed(file, x, events)
    case Drain => Pending(x, events)
    case Deliver(junk) => Delivered(events) <= Completed(events) && |junk| >= Length(file, Delivered(events))
    case Other(_) => true
  }

  /**
   * After any run of a transfer, what can happen next. A callback needs a completed write it is due to, output that is
   * written out must have been pending, and a message must have been sent; anything else can be sent at any time.
   */
  lemma PossibleIff(file: seq<Byte>, x: Setting, events: seq<Event>, e: Event)
    requires Possible(Begin(file, x), events)
    ensures Possible(Begin(file, x), events + [e]) <==>
              !Run(Begin(file, x), events).receiver.crashed && CanHappen(file, x, events, e)
  {
    hide Completed, Delivered, Owed, Pending, Begin, Length, Step;
    OneMore(Begin(file, x), events, e);
    RunIs(file, x, events);
  }
}
