/** The bounded queue that overwrites pending moves in front of the control channel's deliverer. */
module ControlQueue {
  import opened Bytes
  import opened ControlHistory
  import opened ControlMessage
  import opened ControlProtocol
  import opened Wrappers

  const CAPACITY := 64

  /** The deliverer: waiting to be woken, emptying the queue, about to hand one message over, or returned. */
  datatype Deliverer = Waiting | Draining | Holding(m: Message) | Returned

  class ControlQueue {
    const generation: uint64
    var last: uint64
    var gesture: uint64
    var terminal: bool
    var pending: seq<Message>
    var wake: bool
    var deliverer: Deliverer
    // The channel has been told to close; and, when it has closed, the control's context is cancelled.
    var closing: bool
    var cancelled: bool
    // What was accepted and what became of it, what was handed over, and what was taken but dropped unhanded.
    ghost var history: History
    ghost var delivered: seq<Message>
    ghost var dropped: seq<Message>

    ghost function State(): Sequence
      reads this
    {
      Sequence(generation, last, gesture, terminal)
    }

    /** Everything taken from the queue, in order. */
    ghost function Taken(): seq<Message>
      reads this
    {
      delivered + dropped + if deliverer.Holding? then [deliverer.m] else []
    }

    /** Everything taken or still pending. */
    ghost function Out(): seq<Message>
      reads this
    {
      Taken() + pending
    }

    /**
     What every step keeps. Nothing pending sleeps: the deliverer has been woken or is at work. It drops a message only
     when the control's context is cancelled.
     */
    ghost predicate Valid()
      reads this
    {
      && |pending| <= CAPACITY
      && (pending != [] ==> wake || !deliverer.Waiting?)
      && (dropped != [] ==> cancelled && !deliverer.Holding?)
      && Sound(history, Out(), State(), closing)
    }

    constructor (generation: uint64)
      requires generation > 0
      ensures Valid() && State() == NewSequence(generation) && this.generation == generation
      ensures history == [] && delivered == dropped == pending == []
      ensures !closing && !cancelled && !wake && deliverer == Waiting
    {
      this.generation := generation;
      last, gesture, terminal := 0, 0, false;
      pending, wake, deliverer, closing, cancelled := [], false, Waiting, false, false;
      history, delivered, dropped := [], [], [];
      NothingIsSound(generation);
    }

    /** Until the channel is told to close, all that was accepted goes out as a run to the automaton's very state. */
    lemma NothingLost()
      requires Valid() && !closing
      ensures RunOf(generation, Out()) == Some(State()) && Coalesced(Out()) == Coalesced(AcceptedOf(history))
    {
    }

    /** Moves the automaton, or leaves it and says why not by refusing. */
    method Accept(m: Message) returns (ok: bool)
      modifies this`last, this`gesture, this`terminal
      ensures ok == Accepted(old(State()), m).Some?
      ensures State() == if ok then Accepted(old(State()), m).value else old(State())
    {
      var valid := Validate(m);
      if !valid {
        return false;
      }
      if m.generation != generation || m.sequence <= last {
        return false;
      }
      if m.kind == KEY || m.kind == SET_FOLLOWERS {
        last := m.sequence;
        return true;
      }
      if m.kind == DOWN {
        if gesture != 0 && !terminal {
          return false;
        }
        gesture, terminal := m.gestureID, false;
      } else if m.kind == MOVE {
        if gesture == 0 || terminal || m.gestureID != gesture {
          return false;
        }
      } else if m.kind == UP || m.kind == CANCEL {
        if gesture == 0 || terminal || m.gestureID != gesture {
          return false;
        }
        terminal := true;
      }
      last := m.sequence;
      return true;
    }

    /** Queues an accepted message: over the pending move it overtakes, or behind the rest if there is room. */
    method Enqueue(m: Message) returns (ok: bool)
      requires |pending| <= CAPACITY
      modifies this`pending, this`wake
      ensures ok <==> |old(pending)| < 64 || Overtaken(Last(old(pending)), m)
      ensures pending == if ok then Pushed(old(pending), m) else old(pending)
      ensures var was := old(pending);
              var stale := was != [] && Last(was).kind == MOVE && m.kind == MOVE && Last(was).gestureID == m.gestureID;
              pending == if stale then was[..|was| - 1] + [m] else if |was| < 64 then was + [m] else was
      ensures |pending| <= CAPACITY && (ok && |pending| > |old(pending)| ==> wake) && (old(wake) ==> wake)
      ensures !ok ==> |old(pending)| == CAPACITY
    {
      var count := |pending|;
      if m.kind == MOVE && count > 0 {
        var newest := pending[count - 1];
        if newest.kind == MOVE && newest.gestureID == m.gestureID {
          pending := pending[..count - 1] + [m];
          return true;
        }
      }
      if count == CAPACITY {
        return false;
      }
      pending := pending + [m];
      wake := true;
      return true;
    }

    /** A message goes through the automaton and into the queue; a refusal by either closes the channel. */
    method Admit(m: Message) returns (ok: bool)
      requires Valid() && !cancelled
      modifies this`last, this`gesture, this`terminal, this`pending, this`wake, this`closing, this`history
      ensures Valid() && closing == (old(closing) || !ok)
      ensures var next, room := Accepted(old(State()), m), |old(pending)| < CAPACITY || Overtaken(Last(old(pending)), m);
                && ok == (next.Some? && room)
                && State() == (if next.Some? then next.value else old(State()))
                && pending == (if ok then Pushed(old(pending), m) else old(pending))
                && history == (if next.None? then old(history) else old(history) + [Entry(m, if ok then Some(|Out()| - 1) else None)])
      ensures (old(wake) ==> wake) && (ok && |pending| > |old(pending)| ==> wake)
    {
      hide RunOf, Coalesced, Pushed, Accepted, Overtaken, Traced, AcceptedOf, KeptOf;
      ghost var taken, was := Taken(), pending;
      ok := Accept(m);
      if !ok {
        closing := true;
        return;
      }
      hide Sound;
      ok := Enqueue(m);
      assert Taken() == taken;
      if ok {
        PushIsSound(history, taken, was, old(State()), m, closing);
        history := history + [Entry(m, Some(|Out()| - 1))];
      } else {
        LossIsSound(history, taken + was, old(State()), m, closing);
        closing, history := true, history + [Entry(m, None)];
      }
    }

    /**
     One message from the channel: once the control's context is cancelled it is refused unseen, and before that admitted.
     What goes out is a run of the protocol exactly when no touch in it was queued out of step.
     */
    method Receive(m: Message) returns (ok: bool)
      requires Valid()
      modifies this
      ensures Valid() && closing == (old(closing) || !ok) && cancelled == old(cancelled)
      ensures RunOf(generation, Out()).Some? <==> Unbroken(history, |Out()|)
      ensures delivered == old(delivered) && dropped == old(dropped) && deliverer == old(deliverer)
      ensures old(cancelled) ==>
                !ok && State() == old(State()) && pending == old(pending) && wake == old(wake) && history == old(history)
      ensures !old(cancelled) ==>
                var next, room := Accepted(old(State()), m), |old(pending)| < CAPACITY || Overtaken(Last(old(pending)), m);
                && ok == (next.Some? && room)
                && State() == (if next.Some? then next.value else old(State()))
                && pending == (if ok then Pushed(old(pending), m) else old(pending))
                && history == (if next.None? then old(history) else old(history) + [Entry(m, if ok then Some(|Out()| - 1) else None)])
                && (old(wake) ==> wake) && (ok && |pending| > |old(pending)| ==> wake)
    {
      hide RunOf, Coalesced, Pushed, Accepted, Overtaken, Traced, AcceptedOf, KeptOf, Unbroken;
      if cancelled {
        closing := true;
        ok := false;
      } else {
        ok := Admit(m);
      }
      WholeIsExact(history, Out(), State(), closing);
    }

    /** The channel has closed: its callback cancels the control's context. */
    method OnClose()
      requires Valid()
      modifies this`closing, this`cancelled
      ensures Valid() && closing && cancelled
    {
      hide Coalesced, Traced, RunOf, AcceptedOf, KeptOf;
      closing, cancelled := true, true;
    }

    /** The deliverer leaves its wait: woken, or because the context is cancelled; when both are so, either may win. */
    method Woken()
      requires Valid() && deliverer.Waiting? && (wake || cancelled)
      modifies this`wake, this`deliverer
      ensures Valid() && Out() == old(Out())
      ensures || (deliverer == Draining && old(wake) && !wake)
              || (deliverer == Returned && cancelled && wake == old(wake))
    {
      hide Sound;
      var leaves := *;
      if cancelled && (leaves || !wake) {
        deliverer := Returned;
      } else {
        wake, deliverer := false, Draining;
      }
    }

    /** The deliverer returns when the context is cancelled, takes the next message, or goes back to wait for one. */
    method TakeNext()
      requires Valid() && deliverer.Draining?
      modifies this`pending, this`deliverer
      ensures Valid() && Out() == old(Out())
      ensures deliverer == if cancelled then Returned else if old(pending) == [] then Waiting else Holding(old(pending)[0])
      ensures pending == if deliverer.Holding? then old(pending)[1..] else old(pending)
    {
      hide Sound;
      if cancelled {
        deliverer := Returned;
        return;
      }
      if pending == [] {
        deliverer := Waiting;
        return;
      }
      deliverer := Holding(pending[0]);
      pending := pending[1..];
      assert Out() == old(Out());
    }

    /**
     The message taken is handed over, unless the context has been cancelled meanwhile; a handler that fails closes the
     channel and ends the deliverer. What has been handed over, like all that goes out, is a run exactly when no touch in
     it was queued out of step.
     */
    method HandOver(failed: bool)
      requires Valid() && deliverer.Holding?
      modifies this`deliverer, this`closing, this`delivered, this`dropped
      ensures Valid() && Out() == old(Out())
      ensures if cancelled then delivered == old(delivered) && dropped == [old(deliverer.m)] && deliverer == Draining
              else delivered == old(delivered) + [old(deliverer.m)] && dropped == [] && deliverer == if failed then Returned else Draining
      ensures closing == (old(closing) || (!cancelled && failed))
      ensures RunOf(generation, delivered).Some? <==> Unbroken(history, |delivered|)
      ensures RunOf(generation, Out()).Some? <==> Unbroken(history, |Out()|)
    {
      hide Coalesced, Traced, AcceptedOf, KeptOf, RunOf, Unbroken;
      var m := deliverer.m;
      if cancelled {
        dropped := dropped + [m];
        deliverer := Draining;
      } else {
        delivered := delivered + [m];
        if failed {
          closing, deliverer := true, Returned;
        } else {
          deliverer := Draining;
        }
      }
      assert Out() == old(Out());
      assert Out() == delivered + (dropped + pending);
      BeginningIsExact(history, delivered, dropped + pending, State(), closing);
      WholeIsExact(history, Out(), State(), closing);
    }
  }

  // ----- A touch-up lost and a touch-down let in

  function TouchOf(kind: byte, sequence: uint64, gesture: uint64): Message {
    Message(VERSION, kind, kind == UP, sequence, gesture, 0, 1, 1, 1, 0, 0, 0, 0, GESTURE_UNSPECIFIED, 0, [])
  }

  function KeyOf(sequence: uint64): Message {
    Message(VERSION, KEY, true, sequence, 0, 0, 1, 0, 0, 0, 0, 1, 1, GESTURE_UNSPECIFIED, 0, [])
  }

  /** A peer whose first gesture is under way, with this many messages pending and none handed over. */
  ghost predicate Filled(queue: ControlQueue, n: nat)
    reads queue
  {
    && queue.Valid() && n < TWO_64 && queue.State() == Sequence(1, n, 7, false)
    && |queue.pending| == n > 0 && Last(queue.pending).kind != MOVE
    && !queue.cancelled && !queue.closing && queue.wake && queue.deliverer == Waiting
    && queue.delivered == queue.dropped == []
  }

  method PressKey(queue: ControlQueue, ghost n: nat, sequence: uint64)
    requires Filled(queue, n) && n < CAPACITY && sequence == n + 1
    modifies queue
    ensures Filled(queue, n + 1)
  {
    hide RunOf, Coalesced, Sound, Unbroken;
    var _ := queue.Receive(KeyOf(sequence));
  }

  /** A touch-down and keys that fill the queue, from a new peer. */
  method FillQueue() returns (queue: ControlQueue)
    ensures fresh(queue) && Filled(queue, CAPACITY) && RunOf(1, queue.Out()) == Some(queue.State())
  {
    hide RunOf, Coalesced, Sound, Unbroken;
    queue := new ControlQueue(1);
    var _ := queue.Receive(TouchOf(DOWN, 1, 7));
    for k := 1 to CAPACITY
      invariant fresh(queue) && Filled(queue, k)
    {
      PressKey(queue, k, k + 1);
    }
    queue.NothingLost();
  }

  /** The touch-up finds no room, and the deliverer then makes some. */
  method LoseTouchUp() returns (queue: ControlQueue, lost: bool)
    ensures fresh(queue) && lost && queue.Valid() && queue.closing && !queue.cancelled
    ensures |queue.pending| < CAPACITY && queue.State() == Sequence(1, 65, 7, true)
    ensures RunOf(1, queue.Out()) == Some(Sequence(1, 64, 7, false))
  {
    queue := FillQueue();
    hide RunOf, Coalesced, Pushed, Sound, Unbroken;
    var kept := queue.Receive(TouchOf(UP, 65, 7));
    lost := !kept;
    queue.Woken();
    queue.TakeNext();
  }

  /**
   The property fails in the window between an overflow and the close it asks for: the touch-up of a gesture finds no
   room, the deliverer makes some, and the touch-down that comes before the channel's close is accepted and queued. What
   goes out is then two touch-downs with no end between them.
   */
  method LostUpBreaksProtocol() returns (queue: ControlQueue, lost: bool, queued: bool)
    ensures lost && queued && queue.Valid() && queue.closing && !queue.cancelled
    ensures RunOf(1, queue.Out()) == None && !Unbroken(queue.history, |queue.Out()|)
  {
    queue, lost := LoseTouchUp();
    hide RunOf, Coalesced, Pushed, Sound, Unbroken;
    ghost var taken, pending := queue.Taken(), queue.pending;
    queued := queue.Receive(TouchOf(DOWN, 66, 8));
    Appended(1, taken + pending, TouchOf(DOWN, 66, 8));
    PushAppends(taken, pending, TouchOf(DOWN, 66, 8));
    assert queue.Taken() == taken;
  }
}
