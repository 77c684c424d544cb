/** The control channel's protocol automaton, what coalescing moves does to a stream, and what losing messages does. */
module ControlProtocol {
  import opened Bytes
  import opened ControlMessage
  import opened Wrappers

  /** The automaton: the last sequence number accepted, the latest gesture, and whether it has ended. */
  datatype Sequence = Sequence(generation: uint64, last: uint64, gesture: uint64, terminal: bool)

  function NewSequence(generation: uint64): Sequence { Sequence(generation, 0, 0, false) }

  predicate Active(s: Sequence, gesture: uint64) { s.gesture != 0 && !s.terminal && gesture == s.gesture }

  function Accepted(s: Sequence, m: Message): Option<Sequence> {
    if !Valid(m) || m.generation != s.generation || m.sequence <= s.last then None
    else if m.kind == DOWN then
      if s.gesture != 0 && !s.terminal then None
      else Some(s.(gesture := m.gestureID, terminal := false, last := m.sequence))
    else if m.kind == MOVE then
      if Active(s, m.gestureID) then Some(s.(last := m.sequence)) else None
    else if m.kind == UP || m.kind == CANCEL then
      if Active(s, m.gestureID) then Some(s.(terminal := true, last := m.sequence)) else None
    else Some(s.(last := m.sequence))
  }

  /** Where a fresh automaton comes to on a whole stream, if it accepts it. */
  function RunOf(generation: uint64, stream: seq<Message>): Option<Sequence> {
    if stream == [] then Some(NewSequence(generation))
    else
      var before := RunOf(generation, stream[..|stream| - 1]);
      if before.None? then None else Accepted(before.value, stream[|stream| - 1])
  }

  /** A move and a later one that makes it stale. */
  predicate Overtaken(m: Message, later: Message) {
    m.kind == MOVE && later.kind == MOVE && m.gestureID == later.gestureID
  }

  function Last(stream: seq<Message>): Message
    requires stream != []
  {
    stream[|stream| - 1]
  }

  function Pushed(pending: seq<Message>, m: Message): seq<Message> {
    if pending != [] && Overtaken(Last(pending), m) then pending[..|pending| - 1] + [m] else pending + [m]
  }

  /** A stream with every overtaken move taken out: what a reader sees that never falls behind nor ahead. */
  function Coalesced(stream: seq<Message>): seq<Message> {
    if stream == [] then [] else Pushed(Coalesced(stream[..|stream| - 1]), Last(stream))
  }

  function WithoutMoves(stream: seq<Message>): seq<Message> {
    if stream == [] then []
    else WithoutMoves(stream[..|stream| - 1]) + if Last(stream).kind == MOVE then [] else [Last(stream)]
  }

  // ----- Laws of coalescing

  lemma Appended(generation: uint64, stream: seq<Message>, m: Message)
    ensures Coalesced(stream + [m]) == Pushed(Coalesced(stream), m)
    ensures WithoutMoves(stream + [m]) == WithoutMoves(stream) + if m.kind == MOVE then [] else [m]
    ensures RunOf(generation, stream + [m]) ==
            var before := RunOf(generation, stream);
            if before.None? then None else Accepted(before.value, m)
  {
    assert (stream + [m])[..|stream|] == stream;
  }

  lemma CoalescedEndsAlike(stream: seq<Message>)
    ensures stream != [] ==> Coalesced(stream) != [] && Last(Coalesced(stream)) == Last(stream)
    ensures stream == [] ==> Coalesced(stream) == []
  {
  }

  /** Overwriting the last of a stream with what overtakes it coalesces as appending does. */
  lemma OverwriteCoalesces(stream: seq<Message>, x: Message, m: Message)
    requires Overtaken(x, m)
    ensures Coalesced(stream + [m]) == Coalesced(stream + [x] + [m])
  {
    Appended(0, stream, m);
    Appended(0, stream, x);
    Appended(0, stream + [x], m);
    hide Coalesced;
    var c := Coalesced(stream);
    assert Pushed(c, x)[..|Pushed(c, x)| - 1] == Pushed(c, m)[..|Pushed(c, m)| - 1];
  }

  lemma OvertakenMakesNoDifference(s: Sequence, x: Message, m: Message)
    requires Overtaken(x, m) && Accepted(s, x).Some?
    ensures Accepted(Accepted(s, x).value, m).Some? ==>
            Accepted(s, m) == Accepted(Accepted(s, x).value, m)
  {
    hide Valid;
  }

  /** And the protocol cannot tell: the automaton comes to the same state without the overtaken move. */
  lemma OverwriteIsAccepted(generation: uint64, stream: seq<Message>, x: Message, m: Message)
    requires Overtaken(x, m) && RunOf(generation, stream + [x] + [m]).Some?
    ensures RunOf(generation, stream + [m]) == RunOf(generation, stream + [x] + [m])
  {
    hide RunOf, Accepted, Coalesced, WithoutMoves, Pushed;
    Appended(generation, stream, m);
    Appended(generation, stream, x);
    Appended(generation, stream + [x], m);
    OvertakenMakesNoDifference(RunOf(generation, stream).value, x, m);
  }

  lemma PushedKeepsRest(pending: seq<Message>, m: Message)
    ensures WithoutMoves(Pushed(pending, m)) == WithoutMoves(pending) + if m.kind == MOVE then [] else [m]
  {
    hide WithoutMoves, RunOf, Coalesced;
    Appended(0, pending, m);
    if pending != [] {
      var front := pending[..|pending| - 1];
      assert pending == front + [Last(pending)];
      Appended(0, front, Last(pending));
      Appended(0, front, m);
    }
  }

  /** Coalescing takes out moves only. */
  lemma {:induction false} CoalescedKeepsRest(stream: seq<Message>)
    ensures WithoutMoves(Coalesced(stream)) == WithoutMoves(stream)
  {
    if stream != [] {
      CoalescedKeepsRest(stream[..|stream| - 1]);
      PushedKeepsRest(Coalesced(stream[..|stream| - 1]), Last(stream));
      hide Pushed;
    }
  }

  ghost predicate NoneOvertaken(stream: seq<Message>) {
    forall k :: 0 <= k < |stream| - 1 ==> !Overtaken(stream[k], stream[k + 1])
  }

  /** And it leaves no move that the next event overtakes. */
  lemma {:induction false} CoalescedHasNoneOvertaken(stream: seq<Message>)
    ensures NoneOvertaken(Coalesced(stream))
  {
    if stream != [] {
      CoalescedHasNoneOvertaken(stream[..|stream| - 1]);
    }
  }

  /** The messages of a stream that their successor does not overtake, in order. */
  function Survivors(stream: seq<Message>): seq<Message> {
    if stream == [] then [] else FirstIfKept(stream) + Survivors(stream[1..])
  }

  function FirstIfKept(stream: seq<Message>): seq<Message>
    requires stream != []
  {
    if |stream| > 1 && Overtaken(stream[0], stream[1]) then [] else [stream[0]]
  }

  lemma {:induction false} SurvivorsEndAlike(stream: seq<Message>)
    requires stream != []
    ensures Survivors(stream) != [] && Last(Survivors(stream)) == Last(stream)
  {
    hide Overtaken;
    var first, rest := FirstIfKept(stream), stream[1..];
    assert Survivors(stream) == first + Survivors(rest);
    if rest == [] {
      assert Survivors(rest) == [] && first == [stream[0]];
    } else {
      SurvivorsEndAlike(rest);
      hide Survivors, FirstIfKept;
      assert Last(first + Survivors(rest)) == Last(Survivors(rest));
    }
  }

  lemma PushedBehind(front: seq<Message>, pending: seq<Message>, m: Message)
    requires pending != []
    ensures Pushed(front + pending, m) == front + Pushed(pending, m)
  {
    hide Overtaken;
  }

  lemma {:induction false} SurvivorsThen(stream: seq<Message>, m: Message)
    ensures Survivors(stream + [m]) == Pushed(Survivors(stream), m)
  {
    hide Overtaken;
    if stream == [] {
      assert [m][1..] == [];
    } else {
      var rest := stream[1..];
      assert (stream + [m])[1..] == rest + [m];
      SurvivorsThen(rest, m);
      if rest == [] {
        assert Survivors(stream) == stream;
        hide Survivors;
      } else {
        SurvivorsEndAlike(rest);
        PushedBehind(FirstIfKept(stream), Survivors(rest), m);
        hide Pushed;
        assert FirstIfKept(stream + [m]) == FirstIfKept(stream);
      }
    }
  }

  /** Coalescing keeps exactly those: of a stretch of moves of one gesture the latest, and everything else. */
  lemma {:induction false} CoalescedKeepsSurvivors(stream: seq<Message>)
    ensures Coalesced(stream) == Survivors(stream)
  {
    if stream != [] {
      hide Coalesced, Survivors, Pushed, RunOf, WithoutMoves;
      var front := stream[..|stream| - 1];
      CoalescedKeepsSurvivors(front);
      SurvivorsThen(front, Last(stream));
      Appended(0, front, Last(stream));
      assert stream == front + [Last(stream)];
    }
  }

  /** A whole stream the protocol accepts is accepted coalesced, and the automaton comes to the same state. */
  lemma {:induction false} CoalescedIsAccepted(generation: uint64, stream: seq<Message>)
    requires RunOf(generation, stream).Some?
    ensures RunOf(generation, Coalesced(stream)) == RunOf(generation, stream)
  {
    if stream != [] {
      var front, m := stream[..|stream| - 1], Last(stream);
      CoalescedIsAccepted(generation, front);
      var c := Coalesced(front);
      Appended(generation, c, m);
      if c != [] && Overtaken(Last(c), m) {
        assert c == c[..|c| - 1] + [Last(c)];
        OverwriteIsAccepted(generation, c[..|c| - 1], Last(c), m);
      }
      hide Accepted;
    }
  }

  /** What goes out after a push onto the pending end: the message appended, or in the place of the move it overtakes. */
  lemma PushAppends(delivered: seq<Message>, pending: seq<Message>, m: Message)
    ensures var out := delivered + pending;
            if pending != [] && Overtaken(Last(pending), m)
            then out == (delivered + pending[..|pending| - 1]) + [Last(pending)]
                 && delivered + Pushed(pending, m) == (delivered + pending[..|pending| - 1]) + [m]
            else delivered + Pushed(pending, m) == out + [m]
  {
    hide Overtaken;
  }

  /** A message pushed onto the pending end of a stream keeps it a run of the protocol. */
  lemma StreamAfterPush(generation: uint64, delivered: seq<Message>, pending: seq<Message>, m: Message)
    requires var before := RunOf(generation, delivered + pending);
             before.Some? && Accepted(before.value, m).Some?
    ensures RunOf(generation, delivered + Pushed(pending, m)) ==
            Accepted(RunOf(generation, delivered + pending).value, m)
  {
    hide RunOf, Coalesced, Accepted, WithoutMoves, Overtaken, Pushed;
    Appended(generation, delivered + pending, m);
    PushAppends(delivered, pending, m);
    if pending != [] && Overtaken(Last(pending), m) {
      OverwriteIsAccepted(generation, delivered + pending[..|pending| - 1], Last(pending), m);
    }
  }

  /** And it coalesces as what was kept does, with the message after it. */
  lemma CoalescedAfterPush(delivered: seq<Message>, pending: seq<Message>, kept: seq<Message>, m: Message)
    requires Coalesced(delivered + pending) == Coalesced(kept)
    ensures Coalesced(delivered + Pushed(pending, m)) == Coalesced(kept + [m])
  {
    hide RunOf, Coalesced, Accepted, WithoutMoves, Overtaken, Pushed;
    Appended(0, delivered + pending, m);
    Appended(0, kept, m);
    PushAppends(delivered, pending, m);
    if pending != [] && Overtaken(Last(pending), m) {
      OverwriteCoalesces(delivered + pending[..|pending| - 1], Last(pending), m);
    }
  }

  // ----- What is lost with a message that finds no room

  /** Where an automaton comes to from this state on, if it accepts the messages. */
  function RunFrom(s: Sequence, stream: seq<Message>): Option<Sequence>
    decreases |stream|
  {
    if stream == [] then Some(s)
    else
      var next := Accepted(s, stream[0]);
      if next.None? then None else RunFrom(next.value, stream[1..])
  }

  /** The gesture under way, if there is one. */
  function Under(s: Sequence): Option<uint64> { if s.gesture != 0 && !s.terminal then Some(s.gesture) else None }

  /** The same gesture under way, and no number used up that the other has left. */
  predicate Trails(s: Sequence, ahead: Sequence) {
    s.generation == ahead.generation && Under(s) == Under(ahead) && s.last <= ahead.last
  }

  lemma TrailsOn(s: Sequence, ahead: Sequence, m: Message)
    requires Trails(s, ahead) && Accepted(ahead, m).Some?
    ensures Accepted(s, m).Some? && Trails(Accepted(s, m).value, Accepted(ahead, m).value)
  {
    hide Valid;
  }

  lemma {:induction false} TrailsRun(s: Sequence, ahead: Sequence, stream: seq<Message>)
    requires Trails(s, ahead) && RunFrom(ahead, stream).Some?
    ensures RunFrom(s, stream).Some?
    decreases |stream|
  {
    hide Accepted, Trails;
    if stream != [] {
      TrailsOn(s, ahead, stream[0]);
      TrailsRun(Accepted(s, stream[0]).value, Accepted(ahead, stream[0]).value, stream[1..]);
    }
  }

  /**
   What the automaton takes, and what is under way after it: a valid message of its generation with a new number, a
   touch-down while no gesture is under way, another touch only of the gesture that is.
   */
  lemma AcceptsExactly(s: Sequence, m: Message)
    ensures Accepted(s, m).Some? <==>
            && Valid(m) && m.generation == s.generation && s.last < m.sequence
            && (m.kind == 1 ==> Under(s) == None) && (2 <= m.kind <= 4 ==> Under(s) == Some(m.gestureID))
    ensures Accepted(s, m).Some? ==>
              var next := Accepted(s, m).value;
              && next.generation == s.generation && next.last == m.sequence
              && Under(next) == if m.kind == 1 then Some(m.gestureID) else if m.kind == 3 || m.kind == 4 then None else Under(s)
  {
  }

  /** A touch one automaton accepts is accepted by another exactly when the same gesture is under way. */
  lemma TouchNeedsGesture(s: Sequence, ahead: Sequence, touch: Message)
    requires s.generation == ahead.generation && s.last <= ahead.last && IsTouch(touch.kind) && Accepted(ahead, touch).Some?
    ensures Accepted(s, touch).Some? <==> Under(s) == Under(ahead)
  {
    hide Valid;
  }

  lemma OtherIsAccepted(s: Sequence, ahead: Sequence, other: Message)
    requires !IsTouch(other.kind) && s.generation == ahead.generation && s.last <= ahead.last && Accepted(ahead, other).Some?
    ensures Accepted(s, other) == Some(s.(last := other.sequence))
    ensures Accepted(ahead, other) == Some(ahead.(last := other.sequence))
  {
    hide Valid;
  }

  /** With another gesture under way than the automaton had, what it accepts is refused exactly from its first touch on. */
  lemma {:induction false} LossBreaksAtNextTouch(s: Sequence, ahead: Sequence, stream: seq<Message>)
    requires Under(s) != Under(ahead) && s.generation == ahead.generation && s.last <= ahead.last
    requires RunFrom(ahead, stream).Some?
    ensures RunFrom(s, stream).Some? <==> forall k :: 0 <= k < |stream| ==> !IsTouch(stream[k].kind)
    decreases |stream|
  {
    hide Accepted, IsTouch;
    if stream != [] {
      var next := stream[0];
      if IsTouch(next.kind) {
        TouchNeedsGesture(s, ahead, next);
      } else {
        OtherIsAccepted(s, ahead, next);
        LossBreaksAtNextTouch(s.(last := next.sequence), ahead.(last := next.sequence), stream[1..]);
        assert forall k :: 0 < k < |stream| ==> stream[k] == stream[1..][k - 1];
      }
    }
  }

  lemma RunMovesOn(s: Sequence, stream: seq<Message>)
    requires RunFrom(s, stream).Some?
    ensures RunFrom(s, stream).value.generation == s.generation && s.last <= RunFrom(s, stream).value.last
    decreases |stream|
  {
    if stream != [] {
      assert Accepted(s, stream[0]).value.generation == s.generation && s.last <= Accepted(s, stream[0]).value.last by {
        hide Valid;
      }
      hide Accepted;
      RunMovesOn(Accepted(s, stream[0]).value, stream[1..]);
    }
  }

  /** A touch the automaton accepts next: a move of the gesture under way, or a touch-down. */
  function FollowUp(s: Sequence): Message
    requires s.last + 1 < TWO_64
  {
    var (kind, gesture) := if Under(s).Some? then (MOVE, s.gesture) else (DOWN, 1);
    Message(VERSION, kind, false, s.last + 1, gesture, 0, s.generation, 1, 1, 0, 0, 0, 0, GESTURE_UNSPECIFIED, 0, [])
  }

  lemma FollowUpIsAccepted(s: Sequence)
    requires s.generation > 0 && s.last + 1 < TWO_64
    ensures Accepted(s, FollowUp(s)).Some? && IsTouch(FollowUp(s).kind)
  {
  }

  /**
   The exact condition on a stretch of messages that is lost: whatever is accepted after it is accepted without it if and
   only if it leaves the gesture under way as it was.
   */
  lemma LossesAreHarmless(s: Sequence, lost: seq<Message>)
    requires s.generation > 0 && RunFrom(s, lost).Some? && RunFrom(s, lost).value.last + 1 < TWO_64
    ensures var next := RunFrom(s, lost).value;
            (forall stream :: RunFrom(next, stream).Some? ==> RunFrom(s, stream).Some?) <==> Under(s) == Under(next)
  {
    RunMovesOn(s, lost);
    var next := RunFrom(s, lost).value;
    if Under(s) == Under(next) {
      forall stream | RunFrom(next, stream).Some? ensures RunFrom(s, stream).Some? {
        TrailsRun(s, next, stream);
      }
    } else {
      var touch := FollowUp(next);
      FollowUpIsAccepted(next);
      hide Accepted, FollowUp;
      assert [touch][1..] == [];
      assert RunFrom(next, [touch]).Some?;
      LossBreaksAtNextTouch(s, next, [touch]);
      assert IsTouch([touch][0].kind);
    }
  }

  lemma MovesGesture(s: Sequence, m: Message)
    requires Accepted(s, m).Some?
    ensures s.generation > 0
    ensures Under(Accepted(s, m).value) == Under(s) <==> m.kind != DOWN && m.kind != UP && m.kind != CANCEL
  {
  }

  /** So one lost message does no harm exactly when it is no touch-down, touch-up or touch-cancel. */
  lemma LossIsHarmless(s: Sequence, m: Message)
    requires Accepted(s, m).Some? && Accepted(s, m).value.last + 1 < TWO_64
    ensures (forall stream :: RunFrom(Accepted(s, m).value, stream).Some? ==> RunFrom(s, stream).Some?) <==>
            m.kind != DOWN && m.kind != UP && m.kind != CANCEL
  {
    MovesGesture(s, m);
    hide Accepted;
    assert [m][1..] == [];
    LossesAreHarmless(s, [m]);
  }

  /** Moves erased, what goes out is what was accepted. */
  lemma MovesErasedAgree(out: seq<Message>, accepted: seq<Message>)
    requires Coalesced(out) == Coalesced(accepted)
    ensures WithoutMoves(out) == WithoutMoves(accepted)
    ensures out != [] && accepted != [] ==> Last(out) == Last(accepted)
  {
    CoalescedKeepsRest(out);
    CoalescedKeepsRest(accepted);
    CoalescedEndsAlike(out);
    CoalescedEndsAlike(accepted);
  }
}
