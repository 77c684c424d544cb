/**
 Which waiting captures one turn of the scheduler starts, which it drops and which it leaves waiting, stated of each
 device by itself: from how many wait ahead of it, how many of those were found watched, and how many places were free.
 */
module FrameStarts {
  import opened Wrappers
  import opened FrameScheduler

  /** The devices whose turn to start comes earlier: those of earlier batches, and those of its own with a lower serial. */
  ghost function Ahead(waiting: map<Serial, nat>, s: Serial): set<Serial>
    requires s in waiting
  {
    set u | u in waiting && (waiting[u] < waiting[s] || (waiting[u] == waiting[s] && u < s))
  }

  /** Whether a device is watched when its turn comes: the answers are numbered as they are asked for. */
  ghost predicate Watched(waiting: map<Serial, nat>, subscribed: (Serial, nat) -> bool, asked: nat, s: Serial)
    requires s in waiting
  {
    subscribed(s, asked + |Ahead(waiting, s)|)
  }

  ghost function WatchedAhead(waiting: map<Serial, nat>, subscribed: (Serial, nat) -> bool, asked: nat, s: Serial): set<Serial>
    requires s in waiting
  {
    set u | u in Ahead(waiting, s) && Watched(waiting, subscribed, asked, u)
  }

  lemma NextIsFirst(waiting: map<Serial, nat>, next: Serial)
    requires IsNext(waiting, next)
    ensures Ahead(waiting, next) == {}
    ensures forall s :: s in waiting && s != next ==> next in Ahead(waiting, s)
  {
  }

  lemma AheadWithout(waiting: map<Serial, nat>, next: Serial, s: Serial)
    requires IsNext(waiting, next) && s in waiting && s != next
    ensures Ahead(waiting - {next}, s) == Ahead(waiting, s) - {next}
    ensures |Ahead(waiting - {next}, s)| == |Ahead(waiting, s)| - 1
  {
    NextIsFirst(waiting, next);
    assert Ahead(waiting - {next}, s) == Ahead(waiting, s) - {next};
  }

  lemma WatchedWithout(waiting: map<Serial, nat>, subscribed: (Serial, nat) -> bool, asked: nat, next: Serial, s: Serial)
    requires IsNext(waiting, next) && s in waiting && s != next
    ensures Watched(waiting - {next}, subscribed, asked + 1, s) == Watched(waiting, subscribed, asked, s)
  {
    hide Ahead, IsNext;
    AheadWithout(waiting, next, s);
  }

  lemma WatchedAheadWithout(waiting: map<Serial, nat>, subscribed: (Serial, nat) -> bool, asked: nat, next: Serial, s: Serial)
    requires IsNext(waiting, next) && s in waiting && s != next
    ensures |WatchedAhead(waiting - {next}, subscribed, asked + 1, s)|
            == |WatchedAhead(waiting, subscribed, asked, s)| - if subscribed(next, asked) then 1 else 0
  {
    var before, after := WatchedAhead(waiting, subscribed, asked, s), WatchedAhead(waiting - {next}, subscribed, asked + 1, s);
    NextIsFirst(waiting, next);
    AheadWithout(waiting, next, s);
    assert Watched(waiting, subscribed, asked, next) == subscribed(next, asked);
    assert next in before <==> subscribed(next, asked);
    forall u | u in Ahead(waiting, s) && u != next
      ensures Watched(waiting - {next}, subscribed, asked + 1, u) == Watched(waiting, subscribed, asked, u)
    {
      WatchedWithout(waiting, subscribed, asked, next, u);
    }
    hide Watched, Ahead, IsNext;
    assert after == before - {next};
  }

  ghost predicate Apart(b: Board) { b.pending.Keys !! b.inFlight.Keys }

  lemma OneStartedStep(b: Board, there: bool)
    requires Apart(b) && b.pending != map[]
    ensures var c, next := OneStarted(b, there), Next(b.pending);
            && Apart(c) && c.cancelling == b.cancelling && c.pending == b.pending - {next} && |c.pending| < |b.pending|
            && c.inFlight == (if there then b.inFlight[next := b.pending[next]] else b.inFlight)
            && c.started == b.started + (if there then [Task(next, b.pending[next])] else [])
            && |c.inFlight| == |b.inFlight| + if there then 1 else 0
  {
    var next := Next(b.pending);
    hide Next, IsNext;
    assert (b.pending - {next}).Keys == b.pending.Keys - {next};
    assert b.inFlight[next := b.pending[next]].Keys == b.inFlight.Keys + {next};
  }

  /** A device that does not wait is left alone: it stays in flight, in the batch it was in, or out of everything. */
  lemma {:induction false} OthersStay(b: Board, bound: nat, subscribed: (Serial, nat) -> bool, asked: nat, s: Serial)
    requires Apart(b) && s !in b.pending
    ensures var t := AllStarted(b, bound, subscribed, asked);
            && s !in t.pending && (s in t.inFlight <==> s in b.inFlight)
            && (s in b.inFlight ==> t.inFlight[s] == b.inFlight[s])
    decreases |b.pending|
  {
    hide Next, IsNext, OneStarted;
    if HasRoom(b, bound) {
      var next := Next(b.pending);
      AllStartedStep(b, bound, subscribed, asked);
      OneStartedStep(b, subscribed(next, asked));
      OthersStay(OneStarted(b, subscribed(next, asked)), bound, subscribed, asked + 1, s);
    }
  }

  /**
   A waiting device's turn comes exactly when the captures in flight and the watched devices ahead of it leave a place.
   Then it starts, in its batch, exactly when it is watched, and otherwise is dropped; when it does not come, it waits on.
   */
  lemma {:induction false} StartsExactly(b: Board, bound: nat, subscribed: (Serial, nat) -> bool, asked: nat, s: Serial)
    requires Apart(b) && !b.cancelling && s in b.pending
    ensures var t := AllStarted(b, bound, subscribed, asked);
            var comes := |b.inFlight| + |WatchedAhead(b.pending, subscribed, asked, s)| < bound;
            && (s in t.pending <==> !comes) && (s in t.pending ==> t.pending[s] == b.pending[s])
            && (s in t.inFlight <==> comes && Watched(b.pending, subscribed, asked, s))
            && (s in t.inFlight ==> t.inFlight[s] == b.pending[s])
    decreases |b.pending|
  {
    hide Next, IsNext, OneStarted, AllStarted, Ahead, WatchedAhead, Watched;
    AllStartedStep(b, bound, subscribed, asked);
    if HasRoom(b, bound) {
      var next := Next(b.pending);
      var c := OneStarted(b, subscribed(next, asked));
      OneStartedStep(b, subscribed(next, asked));
      if s == next {
        NextTurnComes(b.pending, subscribed, asked, s);
        OthersStay(c, bound, subscribed, asked + 1, s);
      } else {
        StartsExactly(c, bound, subscribed, asked + 1, s);
        WatchedWithout(b.pending, subscribed, asked, next, s);
        WatchedAheadWithout(b.pending, subscribed, asked, next, s);
      }
    }
  }

  lemma NextTurnComes(waiting: map<Serial, nat>, subscribed: (Serial, nat) -> bool, asked: nat, next: Serial)
    requires IsNext(waiting, next)
    ensures WatchedAhead(waiting, subscribed, asked, next) == {} && Watched(waiting, subscribed, asked, next) == subscribed(next, asked)
  {
    NextIsFirst(waiting, next);
    hide Ahead;
  }

  /** Every start is of a device that waited and is now in flight, and there are as many starts as new captures in flight. */
  lemma {:induction false} StartsAreNew(b: Board, bound: nat, subscribed: (Serial, nat) -> bool, asked: nat)
    requires Apart(b)
    ensures var t := AllStarted(b, bound, subscribed, asked);
            && Apart(t) && b.started <= t.started && |t.started| - |b.started| == |t.inFlight| - |b.inFlight|
            && forall i :: |b.started| <= i < |t.started| ==>
                 var task := t.started[i];
                 task.serial in b.pending && task.serial in t.inFlight && task.batch == b.pending[task.serial] == t.inFlight[task.serial]
    decreases |b.pending|
  {
    hide Next, IsNext, OneStarted, AllStarted;
    AllStartedStep(b, bound, subscribed, asked);
    if HasRoom(b, bound) {
      var next := Next(b.pending);
      var c := OneStarted(b, subscribed(next, asked));
      OneStartedStep(b, subscribed(next, asked));
      StartsAreNew(c, bound, subscribed, asked + 1);
      OthersStay(c, bound, subscribed, asked + 1, next);
    }
  }

  /** What waits once the due devices have been put in line: the ones that waited, in their batches, and the rest in a new one. */
  ghost predicate InLine(b: Board, due: seq<Serial>, waiting: map<Serial, nat>, newest: nat) {
    && (forall s :: s in waiting <==> s in b.pending || (s in due && s !in b.inFlight))
    && (forall s :: s in b.pending ==> waiting[s] == b.pending[s])
    && (forall s :: s in waiting && s !in b.pending ==> waiting[s] == b.newest + 1)
    && newest == b.newest + if exists s :: s in due && s !in b.pending && s !in b.inFlight then 1 else 0
  }

  lemma DueStandInLine(b: Board, due: seq<Serial>)
    requires Apart(b)
    ensures var c := WithDue(b, due);
            InLine(b, due, c.pending, c.newest) && c.inFlight == b.inFlight && c.started == b.started && !c.cancelling == !b.cancelling
    ensures Apart(WithDue(b, due))
  {
    var newly := Newly(due, b.pending, b.inFlight);
    assert forall s :: s in newly <==> s in due && s !in b.pending && s !in b.inFlight;
    if newly == {} {
      assert forall s :: s in due ==> s in b.pending || s in b.inFlight;
    } else {
      var s :| s in newly;
      assert s in due;
    }
  }

  /**
   A whole turn's admission: when no cancellation has been seen, the due devices that neither wait nor run join the line
   in one new batch, and then each device's turn comes or does not, as above; and afterwards nothing waits, or every
   place is taken.
   */
  lemma AdmissionIsExact(b: Board, bound: nat, turn: Turn) returns (waiting: map<Serial, nat>)
    requires Apart(b) && !b.cancelling && !turn.over && |b.inFlight| <= bound
    ensures var t := Admitted(b, bound, turn);
            && InLine(b, turn.due, waiting, t.newest) && !t.cancelling
            && (t.pending == map[] || |t.inFlight| == bound) && |t.inFlight| <= bound
            && t.pending.Keys <= waiting.Keys && t.inFlight.Keys <= b.inFlight.Keys + waiting.Keys
            && (forall s :: s in b.inFlight ==> s in t.inFlight && t.inFlight[s] == b.inFlight[s])
            && (forall s :: s in waiting ==>
                  var comes := |b.inFlight| + |WatchedAhead(waiting, turn.subscribed, 0, s)| < bound;
                  && (s in t.pending <==> !comes) && (s in t.pending ==> t.pending[s] == waiting[s])
                  && (s in t.inFlight <==> comes && Watched(waiting, turn.subscribed, 0, s))
                  && (s in t.inFlight ==> t.inFlight[s] == waiting[s]))
  {
    hide AllStarted, WithDue, InLine, WatchedAhead, Watched;
    var c := WithDue(b, turn.due);
    waiting := c.pending;
    DueStandInLine(b, turn.due);
    AllStartedFills(c, bound, turn.subscribed, 0);
    forall s | s in waiting
      ensures var comes := |b.inFlight| + |WatchedAhead(waiting, turn.subscribed, 0, s)| < bound;
              var t := Admitted(b, bound, turn);
              && (s in t.pending <==> !comes) && (s in t.pending ==> t.pending[s] == waiting[s])
              && (s in t.inFlight <==> comes && Watched(waiting, turn.subscribed, 0, s))
              && (s in t.inFlight ==> t.inFlight[s] == waiting[s])
    {
      StartsExactly(c, bound, turn.subscribed, 0, s);
    }
    forall s | s !in waiting
      ensures var t := Admitted(b, bound, turn);
              && s !in t.pending && (s in t.inFlight <==> s in b.inFlight) && (s in b.inFlight ==> t.inFlight[s] == b.inFlight[s])
    {
      OthersStay(c, bound, turn.subscribed, 0, s);
    }
  }

  // ----- The totals

  function Total(results: seq<Outcome>, count: Outcome -> nat): nat {
    if results == [] then 0 else Total(results[..|results| - 1], count) + count(results[|results| - 1])
  }

  /** Each count of the totals is the sum of that count over the results. */
  lemma {:induction false} TotalsAreSums(results: seq<Outcome>)
    ensures SumOf(results).captures == Total(results, (o: Outcome) => o.captures)
    ensures SumOf(results).frames == Total(results, (o: Outcome) => o.frames)
    ensures SumOf(results).failures == Total(results, (o: Outcome) => o.failures)
    ensures SumOf(results).truncated == Total(results, (o: Outcome) => o.truncated)
    ensures SumOf(results).cancelled == Total(results, (o: Outcome) => o.cancelled)
  {
    if results != [] {
      TotalsAreSums(results[..|results| - 1]);
    }
  }

  /** And the last failure is the latest there was. */
  lemma {:induction false} LastFailureIsLatest(results: seq<Outcome>)
    ensures if forall i :: 0 <= i < |results| ==> results[i].lastFailure.None? then SumOf(results).lastFailure.None?
            else exists i :: 0 <= i < |results| && results[i].lastFailure == SumOf(results).lastFailure
                             && results[i].lastFailure.Some? && forall j :: i < j < |results| ==> results[j].lastFailure.None?
  {
    if results != [] {
      var n := |results| - 1;
      var front, last := results[..n], results[n];
      LastFailureIsLatest(front);
      assert SumOf(results).lastFailure == if last.lastFailure.Some? then last.lastFailure else SumOf(front).lastFailure;
      hide SumOf, Merged;
      if last.lastFailure.None? && exists i :: 0 <= i < n && front[i].lastFailure.Some? {
        var i :| 0 <= i < n && front[i].lastFailure == SumOf(front).lastFailure && front[i].lastFailure.Some?
                 && forall j :: i < j < n ==> front[j].lastFailure.None?;
        assert results[i] == front[i] && forall j :: i < j < n ==> results[j] == front[j];
      }
    }
  }
}
