/**
 What a queue that loses messages lets out: which messages the automaton accepted, which found room and where, and from
 that, exactly how much of what goes out is a run of the protocol.
 */
module ControlHistory {
  import opened Bytes
  import opened ControlMessage
  import opened ControlProtocol
  import opened Wrappers

  /** A message the automaton accepted, with its place in what goes out if it found room. */
  datatype Entry = Entry(m: Message, place: Option<nat>)

  type History = seq<Entry>

  function AcceptedOf(h: History): seq<Message> {
    if h == [] then [] else AcceptedOf(h[..|h| - 1]) + [h[|h| - 1].m]
  }

  function KeptOf(h: History): seq<Message> {
    if h == [] then [] else KeptOf(h[..|h| - 1]) + if h[|h| - 1].place.Some? then [h[|h| - 1].m] else []
  }

  /** The gesture a stream leaves under way: that of its last touch, if the touch does not end it. */
  function GestureAfter(stream: seq<Message>): Option<uint64> {
    if stream == [] then None
    else if !IsTouch(Last(stream).kind) then GestureAfter(stream[..|stream| - 1])
    else if Last(stream).kind == DOWN || Last(stream).kind == MOVE then Some(Last(stream).gestureID)
    else None
  }

  /** What was accepted and what was queued of it leave the same gesture under way. */
  predicate InStep(h: History) { GestureAfter(AcceptedOf(h)) == GestureAfter(KeptOf(h)) }

  /** A touch was queued out of step with what had been queued before it. */
  predicate Breaks(h: History, k: nat)
    requires k < |h|
  {
    h[k].place.Some? && IsTouch(h[k].m.kind) && !InStep(h[..k])
  }

  /** None of the first n places was taken by such a touch. */
  ghost predicate Unbroken(h: History, n: nat) {
    forall k :: 0 <= k < |h| && Breaks(h, k) ==> h[k].place.value >= n
  }

  /** The exact condition, for every beginning of what goes out. */
  ghost predicate Exact(h: History, out: seq<Message>, generation: uint64) {
    forall n: nat :: n <= |out| ==> (RunOf(generation, out[..n]).Some? <==> Unbroken(h, n))
  }

  lemma EntryThen(h: History, e: Entry)
    ensures AcceptedOf(h + [e]) == AcceptedOf(h) + [e.m]
    ensures KeptOf(h + [e]) == KeptOf(h) + if e.place.Some? then [e.m] else []
  {
    assert (h + [e])[..|h|] == h;
  }

  lemma GestureThen(stream: seq<Message>, m: Message)
    ensures GestureAfter(stream + [m]) ==
            if !IsTouch(m.kind) then GestureAfter(stream)
            else if m.kind == DOWN || m.kind == MOVE then Some(m.gestureID) else None
  {
    assert (stream + [m])[..|stream|] == stream;
  }

  lemma UnbrokenThen(h: History, e: Entry, n: nat)
    ensures Unbroken(h + [e], n) <==>
            Unbroken(h, n) && (e.place.Some? && e.place.value < n && IsTouch(e.m.kind) ==> InStep(h))
  {
    hide InStep, IsTouch;
    var after := h + [e];
    forall k | 0 <= k < |h| ensures after[k] == h[k] && (Breaks(after, k) <==> Breaks(h, k)) {
      assert after[..k] == h[..k];
    }
    assert after[..|h|] == h && after[|h|] == e;
    if Unbroken(after, n) {
      assert Breaks(after, |h|) ==> e.place.value >= n;
    }
  }

  // ----- What goes out is in order

  /** Valid messages of one generation, in rising sequence up to this number. */
  predicate InOrder(generation: uint64, out: seq<Message>, last: nat) {
    && (forall k :: 0 <= k < |out| ==> Valid(out[k]) && out[k].generation == generation && out[k].sequence <= last)
    && (forall j, k :: 0 <= j < k < |out| ==> out[j].sequence < out[k].sequence)
  }

  lemma InOrderThen(generation: uint64, out: seq<Message>, last: nat, m: Message)
    requires InOrder(generation, out, last) && Valid(m) && m.generation == generation && m.sequence > last
    ensures InOrder(generation, out + [m], m.sequence)
  {
    hide Valid;
  }

  lemma InOrderFront(generation: uint64, front: seq<Message>, x: Message, last: nat)
    requires InOrder(generation, front + [x], last)
    ensures x.sequence > 0 && InOrder(generation, front, x.sequence - 1) && x.sequence <= last
    ensures Valid(x) && x.generation == generation
  {
    var out := front + [x];
    assert out[|front|] == x && forall k :: 0 <= k < |front| ==> out[k] == front[k];
    assert Valid(x) ==> x.sequence > 0;
    hide Valid;
  }

  lemma RunIsBehind(generation: uint64, out: seq<Message>, last: nat)
    requires InOrder(generation, out, last) && RunOf(generation, out).Some?
    ensures RunOf(generation, out).value.generation == generation && RunOf(generation, out).value.last <= last
    decreases |out|
  {
    hide RunOf, InOrder, Valid, Accepted, Coalesced, WithoutMoves;
    if out == [] {
      RunOfNothing(generation);
    } else {
      var front, m := out[..|out| - 1], Last(out);
      assert out == front + [m];
      Appended(generation, front, m);
      InOrderFront(generation, front, m, last);
      RunIsBehind(generation, front, m.sequence - 1);
      AcceptedFacts(RunOf(generation, front).value, m);
    }
  }

  lemma RunOfNothing(generation: uint64)
    ensures RunOf(generation, []) == Some(NewSequence(generation))
  {
  }

  lemma AcceptedFacts(s: Sequence, m: Message)
    requires Accepted(s, m).Some?
    ensures Valid(m) && m.generation == s.generation == Accepted(s, m).value.generation
    ensures m.sequence > s.last && Accepted(s, m).value.last == m.sequence
    ensures IsTouch(m.kind) ==> m.gestureID != 0
    ensures Under(Accepted(s, m).value) ==
            if !IsTouch(m.kind) then Under(s)
            else if m.kind == DOWN || m.kind == MOVE then Some(m.gestureID) else None
  {
  }

  /** One message more: what goes out stays a run exactly when a touch finds its gesture under way. */
  lemma RunThen(generation: uint64, out: seq<Message>, s: Sequence, m: Message)
    requires InOrder(generation, out, s.last) && s.generation == generation && Accepted(s, m).Some?
    ensures var run, after := RunOf(generation, out), RunOf(generation, out + [m]);
            && (after.Some? <==> run.Some? && (IsTouch(m.kind) ==> Under(run.value) == Under(s)))
            && (after.Some? ==> Under(after.value) == if IsTouch(m.kind) then Under(Accepted(s, m).value) else Under(run.value))
  {
    hide RunOf, Accepted, InOrder, IsTouch, Valid;
    Appended(generation, out, m);
    AcceptedFacts(s, m);
    if RunOf(generation, out).Some? {
      var run := RunOf(generation, out).value;
      RunIsBehind(generation, out, s.last);
      if IsTouch(m.kind) {
        TouchNeedsGesture(run, s, m);
      } else {
        OtherIsAccepted(run, s, m);
      }
      if Accepted(run, m).Some? {
        AcceptedFacts(run, m);
      }
    }
  }

  lemma MoveNeedsGesture(s: Sequence, m: Message)
    requires m.kind == MOVE && Valid(m) && m.generation == s.generation && m.sequence > s.last
    ensures Accepted(s, m).Some? <==> Under(s) == Some(m.gestureID)
    ensures Accepted(s, m).Some? ==> Under(Accepted(s, m).value) == Some(m.gestureID)
  {
  }

  /** A move in the place of the one it overtakes: a run stays one, and no other becomes one. */
  lemma RunOverwritten(generation: uint64, front: seq<Message>, x: Message, last: nat, m: Message)
    requires InOrder(generation, front + [x], last) && Overtaken(x, m)
    requires Valid(m) && m.generation == generation && m.sequence > last
    ensures RunOf(generation, front + [m]).Some? <==> RunOf(generation, front + [x]).Some?
    ensures RunOf(generation, front + [x]).Some? ==>
              Under(RunOf(generation, front + [x]).value) == Under(RunOf(generation, front + [m]).value) == Some(m.gestureID)
  {
    hide RunOf, Accepted, InOrder, Valid;
    Appended(generation, front, x);
    Appended(generation, front, m);
    InOrderFront(generation, front, x, last);
    if RunOf(generation, front).Some? {
      var run := RunOf(generation, front).value;
      RunIsBehind(generation, front, x.sequence - 1);
      MoveNeedsGesture(run, x);
      MoveNeedsGesture(run, m);
    }
  }

  // ----- What every message keeps

  /** What ties the history to what goes out and to the automaton. */
  ghost predicate Traced(h: History, out: seq<Message>, s: Sequence) {
    && RunOf(s.generation, AcceptedOf(h)) == Some(s) && Under(s) == GestureAfter(AcceptedOf(h))
    && InOrder(s.generation, out, s.last)
    && (forall k :: 0 <= k < |h| && h[k].place.Some? ==> h[k].place.value < |out|)
    && (RunOf(s.generation, out).Some? ==> Under(RunOf(s.generation, out).value) == GestureAfter(KeptOf(h)))
    && Exact(h, out, s.generation)
  }

  lemma AutomatonThen(h: History, s: Sequence, e: Entry)
    requires RunOf(s.generation, AcceptedOf(h)) == Some(s) && Under(s) == GestureAfter(AcceptedOf(h))
    requires Accepted(s, e.m).Some?
    ensures var next := Accepted(s, e.m).value;
            && next.generation == s.generation && RunOf(s.generation, AcceptedOf(h + [e])) == Some(next)
            && Under(next) == GestureAfter(AcceptedOf(h + [e]))
  {
    hide RunOf, Accepted, AcceptedOf, KeptOf, GestureAfter, IsTouch, Coalesced, WithoutMoves;
    EntryThen(h, e);
    GestureThen(AcceptedOf(h), e.m);
    Appended(s.generation, AcceptedOf(h), e.m);
    AcceptedFacts(s, e.m);
  }

  lemma LossIsTraced(h: History, out: seq<Message>, s: Sequence, m: Message)
    requires Traced(h, out, s) && Accepted(s, m).Some?
    ensures Traced(h + [Entry(m, None)], out, Accepted(s, m).value)
  {
    hide RunOf, Accepted, AcceptedOf, KeptOf, GestureAfter, IsTouch, Valid, InStep, Unbroken;
    var e := Entry(m, None);
    assert forall k :: 0 <= k < |h| ==> (h + [e])[k] == h[k];
    AutomatonThen(h, s, e);
    EntryThen(h, e);
    AcceptedFacts(s, m);
    var next := Accepted(s, m).value;
    assert InOrder(s.generation, out, next.last);
    assert KeptOf(h + [e]) == KeptOf(h);
    forall n: nat | n <= |out| ensures RunOf(s.generation, out[..n]).Some? <==> Unbroken(h + [e], n) {
      UnbrokenThen(h, e, n);
    }
  }

  lemma PlacedBefore(h: History, out: seq<Message>, n: nat)
    requires forall k :: 0 <= k < |h| && h[k].place.Some? ==> h[k].place.value < |out|
    requires n >= |out|
    ensures Unbroken(h, n) <==> Unbroken(h, |out|)
  {
    hide InStep, IsTouch;
    if Unbroken(h, |out|) || Unbroken(h, n) {
      assert forall k :: 0 <= k < |h| ==> !Breaks(h, k);
    }
  }

  lemma AppendIsExact(h: History, out: seq<Message>, s: Sequence, m: Message)
    requires Traced(h, out, s) && Accepted(s, m).Some?
    ensures Exact(h + [Entry(m, Some(|out|))], out + [m], s.generation)
    ensures var run := RunOf(s.generation, out + [m]);
            run.Some? ==> Under(run.value) == GestureAfter(KeptOf(h + [Entry(m, Some(|out|))]))
  {
    hide RunOf, Accepted, AcceptedOf, KeptOf, GestureAfter, IsTouch, Valid, Unbroken, InOrder;
    var e, after := Entry(m, Some(|out|)), out + [m];
    RunThen(s.generation, out, s, m);
    EntryThen(h, e);
    GestureThen(KeptOf(h), m);
    AcceptedFacts(s, m);
    PlacedBefore(h, out, |after|);
    assert out[..|out|] == out;
    forall n: nat | n <= |after| ensures RunOf(s.generation, after[..n]).Some? <==> Unbroken(h + [e], n) {
      UnbrokenThen(h, e, n);
      assert after[..n] == if n <= |out| then out[..n] else after;
    }
  }

  lemma OverwriteIsExact(h: History, front: seq<Message>, x: Message, s: Sequence, m: Message)
    requires Traced(h, front + [x], s) && Overtaken(x, m) && Accepted(s, m).Some?
    ensures Exact(h + [Entry(m, Some(|front|))], front + [m], s.generation)
    ensures var run := RunOf(s.generation, front + [m]);
            run.Some? ==> Under(run.value) == GestureAfter(KeptOf(h + [Entry(m, Some(|front|))]))
  {
    hide RunOf, Accepted, AcceptedOf, KeptOf, GestureAfter, Valid, Unbroken, InOrder;
    var e, out, after := Entry(m, Some(|front|)), front + [x], front + [m];
    AcceptedFacts(s, m);
    RunOverwritten(s.generation, front, x, s.last, m);
    MoveNeedsGesture(s, m);
    EntryThen(h, e);
    GestureThen(KeptOf(h), m);
    assert out[..|out|] == out;
    forall n: nat | n <= |after| ensures RunOf(s.generation, after[..n]).Some? <==> Unbroken(h + [e], n) {
      UnbrokenThen(h, e, n);
      assert n <= |front| ==> after[..n] == out[..n];
      assert n > |front| ==> after[..n] == after;
    }
  }

  /** What a message that finds room leaves: one message more, or the one it overtakes replaced. */
  lemma PushIsTraced(h: History, taken: seq<Message>, pending: seq<Message>, s: Sequence, m: Message)
    requires Traced(h, taken + pending, s) && Accepted(s, m).Some?
    ensures var after := taken + Pushed(pending, m);
            after != [] && Traced(h + [Entry(m, Some(|after| - 1))], after, Accepted(s, m).value)
  {
    hide RunOf, Accepted, AcceptedOf, KeptOf, GestureAfter, IsTouch, Valid, Unbroken, Overtaken, Pushed, InOrder, Exact;
    var after := taken + Pushed(pending, m);
    PushAppends(taken, pending, m);
    AcceptedFacts(s, m);
    if pending != [] && Overtaken(Last(pending), m) {
      var front, x := taken + pending[..|pending| - 1], Last(pending);
      OverwriteIsExact(h, front, x, s, m);
      InOrderOverwritten(s.generation, front, x, s.last, m);
    } else {
      AppendIsExact(h, taken + pending, s, m);
      InOrderThen(s.generation, taken + pending, s.last, m);
    }
    var e := Entry(m, Some(|after| - 1));
    AutomatonThen(h, s, e);
    assert forall k :: 0 <= k < |h| ==> (h + [e])[k] == h[k];
  }

  lemma InOrderOverwritten(generation: uint64, front: seq<Message>, x: Message, last: nat, m: Message)
    requires InOrder(generation, front + [x], last) && Valid(m) && m.generation == generation && m.sequence > last
    ensures InOrder(generation, front + [m], m.sequence)
  {
    InOrderFront(generation, front, x, last);
    InOrderThen(generation, front, x.sequence - 1, m);
  }

  /**
   What goes out is what was queued, coalesced; nothing is lost without closing the channel; while nothing is lost it is
   a run to the automaton's very state; and exactly as much of it is a run as no touch queued out of step has a place in.
   */
  ghost predicate Sound(h: History, out: seq<Message>, s: Sequence, closing: bool) {
    && Coalesced(out) == Coalesced(KeptOf(h))
    && |KeptOf(h)| <= |AcceptedOf(h)| && (!closing ==> KeptOf(h) == AcceptedOf(h))
    && (KeptOf(h) == AcceptedOf(h) ==> RunOf(s.generation, out) == Some(s))
    && Traced(h, out, s)
  }

  lemma NothingIsSound(generation: uint64)
    ensures Sound([], [], NewSequence(generation), false)
  {
    assert RunOf(generation, []) == Some(NewSequence(generation));
  }

  lemma LossIsSound(h: History, out: seq<Message>, s: Sequence, m: Message, closing: bool)
    requires Sound(h, out, s, closing) && Accepted(s, m).Some?
    ensures Sound(h + [Entry(m, None)], out, Accepted(s, m).value, true)
  {
    hide Coalesced, Accepted, RunOf, Traced, AcceptedOf, KeptOf;
    var e := Entry(m, None);
    LossIsTraced(h, out, s, m);
    EntryThen(h, e);
    assert KeptOf(h + [e]) == KeptOf(h) && |AcceptedOf(h + [e])| == |AcceptedOf(h)| + 1;
  }

  lemma PushIsSound(h: History, taken: seq<Message>, pending: seq<Message>, s: Sequence, m: Message, closing: bool)
    requires Sound(h, taken + pending, s, closing) && Accepted(s, m).Some?
    ensures var after := taken + Pushed(pending, m);
            after != [] && Sound(h + [Entry(m, Some(|after| - 1))], after, Accepted(s, m).value, closing)
  {
    hide Coalesced, Accepted, RunOf, Traced, AcceptedOf, KeptOf, Pushed;
    PushIsTraced(h, taken, pending, s, m);
    CoalescedAfterPush(taken, pending, KeptOf(h), m);
    var e := Entry(m, Some(|taken + Pushed(pending, m)| - 1));
    EntryThen(h, e);
    AcceptedFacts(s, m);
    if KeptOf(h + [e]) == AcceptedOf(h + [e]) {
      assert KeptOf(h) == KeptOf(h + [e])[..|KeptOf(h)|] == AcceptedOf(h);
      StreamAfterPush(s.generation, taken, pending, m);
    }
  }

  lemma WholeIsExact(h: History, out: seq<Message>, s: Sequence, closing: bool)
    requires Sound(h, out, s, closing)
    ensures RunOf(s.generation, out).Some? <==> Unbroken(h, |out|)
  {
    hide Sound, RunOf, Unbroken;
    assert out + [] == out;
    BeginningIsExact(h, out, [], s, closing);
  }

  /** Any beginning of what goes out is a run exactly when no touch in it was queued out of step. */
  lemma BeginningIsExact(h: History, begin: seq<Message>, rest: seq<Message>, s: Sequence, closing: bool)
    requires Sound(h, begin + rest, s, closing)
    ensures RunOf(s.generation, begin).Some? <==> Unbroken(h, |begin|)
  {
    hide Coalesced, RunOf, AcceptedOf, KeptOf, Unbroken;
    assert (begin + rest)[..|begin|] == begin;
  }
}
