/**
 The grid's capture scheduler: batches of due devices wait, are captured a bounded number at a time, and complete,
 until a cancellation has let the running captures finish. Time enters only through which devices are due.
 */
module FrameScheduler {
  import opened Wrappers

  /** A device's transport serial, by its place in the order of serials. */
  type Serial = nat

  datatype Task = Task(serial: Serial, batch: nat)

  /** What captures came to; the last failure is its class. */
  datatype Outcome = Outcome(
    captures: nat, frames: nat, failures: nat, truncated: nat, cancelled: nat, lastFailure: Option<nat>)

  const NOTHING := Outcome(0, 0, 0, 0, 0, None)

  function Merged(a: Outcome, b: Outcome): Outcome {
    Outcome(a.captures + b.captures, a.frames + b.frames, a.failures + b.failures, a.truncated + b.truncated,
            a.cancelled + b.cancelled, if b.lastFailure.Some? then b.lastFailure else a.lastFailure)
  }

  function SumOf(results: seq<Outcome>): Outcome {
    if results == [] then NOTHING else Merged(SumOf(results[..|results| - 1]), results[|results| - 1])
  }

  /** Earlier batches first, and within a batch by serial. */
  predicate Before(a: Task, b: Task) { a.batch < b.batch || (a.batch == b.batch && a.serial < b.serial) }

  // ----- What a batch has outstanding

  function TasksOf(tasks: map<Serial, nat>, batch: nat): set<Serial> { set s | s in tasks && tasks[s] == batch }

  function Outstanding(pending: map<Serial, nat>, inFlight: map<Serial, nat>, batch: nat): nat {
    |TasksOf(pending, batch)| + |TasksOf(inFlight, batch)|
  }

  /** Each batch counts exactly its tasks that wait or run, and a batch with none is forgotten. */
  ghost predicate Batched(pending: map<Serial, nat>, inFlight: map<Serial, nat>, batches: map<nat, nat>) {
    forall b: nat :: if b in batches then batches[b] == Outstanding(pending, inFlight, b) > 0 else Outstanding(pending, inFlight, b) == 0
  }

  ghost predicate NoLater(batches: map<nat, nat>, newest: nat) { forall b: nat :: b in batches ==> b <= newest }

  lemma NewestIsNew(batches: map<nat, nat>, newest: nat, n: nat)
    requires NoLater(batches, newest)
    ensures newest + 1 !in batches && NoLater(batches[newest + 1 := n], newest + 1)
  {
  }

  lemma FinishedNoLater(batches: map<nat, nat>, batch: nat, newest: nat)
    requires NoLater(batches, newest)
    ensures NoLater(Finished(batches, batch), newest)
  {
  }

  function Finished(batches: map<nat, nat>, batch: nat): map<nat, nat> {
    if batch !in batches then batches
    else if batches[batch] > 1 then batches[batch := batches[batch] - 1]
    else batches - {batch}
  }

  lemma TaskGone(tasks: map<Serial, nat>, serial: Serial, batch: nat)
    requires serial in tasks
    ensures |TasksOf(tasks - {serial}, batch)| == |TasksOf(tasks, batch)| - if tasks[serial] == batch then 1 else 0
  {
    var before, after := TasksOf(tasks, batch), TasksOf(tasks - {serial}, batch);
    assert after == if tasks[serial] == batch then before - {serial} else before;
  }

  lemma TaskAdded(tasks: map<Serial, nat>, serial: Serial, of: nat, batch: nat)
    requires serial !in tasks
    ensures |TasksOf(tasks[serial := of], batch)| == |TasksOf(tasks, batch)| + if of == batch then 1 else 0
  {
    var before, after := TasksOf(tasks, batch), TasksOf(tasks[serial := of], batch);
    assert after == if of == batch then before + {serial} else before;
  }

  /** A waiting task that is dropped leaves its batch. */
  lemma WaitingDropped(pending: map<Serial, nat>, inFlight: map<Serial, nat>, batches: map<nat, nat>, serial: Serial)
    requires Batched(pending, inFlight, batches) && serial in pending
    ensures Batched(pending - {serial}, inFlight, Finished(batches, pending[serial]))
  {
    hide TasksOf;
    forall b: nat ensures |TasksOf(pending - {serial}, b)| == |TasksOf(pending, b)| - if pending[serial] == b then 1 else 0 {
      TaskGone(pending, serial, b);
    }
  }

  lemma RunningDone(pending: map<Serial, nat>, inFlight: map<Serial, nat>, batches: map<nat, nat>, serial: Serial)
    requires Batched(pending, inFlight, batches) && serial in inFlight
    ensures Batched(pending, inFlight - {serial}, Finished(batches, inFlight[serial]))
  {
    hide TasksOf;
    forall b: nat ensures |TasksOf(inFlight - {serial}, b)| == |TasksOf(inFlight, b)| - if inFlight[serial] == b then 1 else 0 {
      TaskGone(inFlight, serial, b);
    }
  }

  /** A waiting task that starts stays outstanding. */
  lemma WaitingStarts(pending: map<Serial, nat>, inFlight: map<Serial, nat>, batches: map<nat, nat>, serial: Serial)
    requires Batched(pending, inFlight, batches) && serial in pending && serial !in inFlight
    ensures Batched(pending - {serial}, inFlight[serial := pending[serial]], batches)
  {
    hide TasksOf;
    forall b: nat ensures Outstanding(pending - {serial}, inFlight[serial := pending[serial]], b) == Outstanding(pending, inFlight, b) {
      TaskGone(pending, serial, b);
      TaskAdded(inFlight, serial, pending[serial], b);
    }
  }

  // ----- A new batch

  ghost predicate Distinct(due: seq<Serial>) { forall i, j :: 0 <= i < j < |due| ==> due[i] != due[j] }

  function Enqueued(pending: map<Serial, nat>, due: set<Serial>, batch: nat): map<Serial, nat> {
    pending + map s | s in due :: batch
  }

  function Elements(due: seq<Serial>): set<Serial> { set s | s in due }

  /** The due devices that neither wait nor run. */
  function Newly(candidates: seq<Serial>, pending: map<Serial, nat>, inFlight: map<Serial, nat>): set<Serial> {
    Elements(candidates) - (pending.Keys + inFlight.Keys)
  }

  function NewlyCount(candidates: seq<Serial>, pending: map<Serial, nat>, inFlight: map<Serial, nat>): nat {
    |Newly(candidates, pending, inFlight)|
  }

  method NewlyDue(candidates: seq<Serial>, occupied: set<Serial>) returns (due: seq<Serial>)
    requires Distinct(candidates)
    ensures Distinct(due) && Elements(due) == Elements(candidates) - occupied
  {
    due := [];
    for i := 0 to |candidates|
      invariant Distinct(due) && forall s :: s in due <==> s in candidates[..i] && s !in occupied
    {
      assert candidates[..i + 1] == candidates[..i] + [candidates[i]];
      assert candidates[i] !in candidates[..i];
      if candidates[i] !in occupied {
        due := due + [candidates[i]];
      }
    }
    assert candidates[..|candidates|] == candidates;
  }

  lemma {:induction false} DistinctSize(due: seq<Serial>)
    requires Distinct(due)
    ensures |Elements(due)| == |due|
  {
    if due != [] {
      var front, last := due[..|due| - 1], due[|due| - 1];
      DistinctSize(front);
      assert last !in front && due == front + [last];
      assert Elements(due) == Elements(front) + {last};
    }
  }

  lemma EnqueuedMore(pending: map<Serial, nat>, due: set<Serial>, serial: Serial, batch: nat)
    ensures Enqueued(pending, due + {serial}, batch) == Enqueued(pending, due, batch)[serial := batch]
  {
  }

  lemma EnqueuedTasks(pending: map<Serial, nat>, due: set<Serial>, batch: nat, b: nat)
    requires pending.Keys !! due
    ensures TasksOf(Enqueued(pending, due, batch), b) == TasksOf(pending, b) + if b == batch then due else {}
    ensures |TasksOf(Enqueued(pending, due, batch), b)| == |TasksOf(pending, b)| + if b == batch then |due| else 0
  {
    assert TasksOf(pending, b) !! due;
  }

  /** A new batch counts its devices and leaves the other batches alone. */
  lemma BatchCounted(pending: map<Serial, nat>, inFlight: map<Serial, nat>, batches: map<nat, nat>, batch: nat, due: set<Serial>)
    requires Batched(pending, inFlight, batches) && batch !in batches && due != {} && pending.Keys !! due
    ensures Batched(Enqueued(pending, due, batch), inFlight, batches[batch := |due|])
  {
    hide TasksOf, Enqueued;
    var after := Enqueued(pending, due, batch);
    forall b: nat ensures Outstanding(after, inFlight, b) == Outstanding(pending, inFlight, b) + if b == batch then |due| else 0 {
      EnqueuedTasks(pending, due, batch, b);
    }
  }

  /** And it comes after everything that started. */
  lemma BatchOrdered(started: seq<Task>, pending: map<Serial, nat>, batch: nat, due: set<Serial>)
    requires batch > 0 && Ordered(started, pending, batch - 1) && pending.Keys !! due
    ensures Ordered(started, Enqueued(pending, due, batch), batch)
  {
  }

  lemma BatchKeys(pending: map<Serial, nat>, batch: nat, due: set<Serial>)
    ensures Enqueued(pending, due, batch).Keys == pending.Keys + due
  {
  }

  lemma BatchSize(pending: map<Serial, nat>, batch: nat, due: set<Serial>)
    requires pending.Keys !! due
    ensures |Enqueued(pending, due, batch)| == |pending| + |due|
  {
    BatchKeys(pending, batch, due);
    assert |pending.Keys + due| == |pending.Keys| + |due|;
  }

  method PutAll(pending: map<Serial, nat>, due: seq<Serial>, batch: nat) returns (waiting: map<Serial, nat>)
    ensures waiting == Enqueued(pending, Elements(due), batch)
  {
    waiting := pending;
    for i := 0 to |due|
      invariant waiting == Enqueued(pending, Elements(due[..i]), batch)
    {
      assert Elements(due[..i + 1]) == Elements(due[..i]) + {due[i]};
      EnqueuedMore(pending, Elements(due[..i]), due[i], batch);
      hide Elements, Enqueued;
      waiting := waiting[due[i] := batch];
    }
    assert due[..|due|] == due;
  }

  // ----- The order of starts

  /** Starts go strictly by batch and serial, and everything that waits comes after everything that started. */
  ghost predicate Ordered(started: seq<Task>, pending: map<Serial, nat>, newest: nat) {
    && (forall i, j :: 0 <= i < j < |started| ==> Before(started[i], started[j]))
    && (forall i, s :: 0 <= i < |started| && s in pending ==> Before(started[i], Task(s, pending[s])))
    && (forall i :: 0 <= i < |started| ==> started[i].batch <= newest)
    && (forall s :: s in pending ==> pending[s] <= newest)
  }

  lemma LeastStarts(started: seq<Task>, pending: map<Serial, nat>, newest: nat, serial: Serial)
    requires Ordered(started, pending, newest) && IsNext(pending, serial)
    ensures Ordered(started + [Task(serial, pending[serial])], pending - {serial}, newest)
  {
  }

  lemma OrderedWithout(started: seq<Task>, pending: map<Serial, nat>, newest: nat, serial: Serial)
    requires Ordered(started, pending, newest)
    ensures Ordered(started, pending - {serial}, newest)
  {
  }

  /** The waiting task of the earliest batch, by serial. */
  ghost predicate IsNext(pending: map<Serial, nat>, serial: Serial) {
    && serial in pending
    && forall s :: s in pending && s != serial ==> Before(Task(serial, pending[serial]), Task(s, pending[s]))
  }

  lemma {:induction false} NextExists(pending: map<Serial, nat>, among: set<Serial>) returns (next: Serial)
    requires among <= pending.Keys && among != {}
    ensures next in among
    ensures forall s :: s in among && s != next ==> Before(Task(next, pending[next]), Task(s, pending[s]))
    decreases |among|
  {
    var some :| some in among;
    next := some;
    if among != {some} {
      var best := NextExists(pending, among - {some});
      next := if Before(Task(best, pending[best]), Task(some, pending[some])) then best else some;
    }
  }

  lemma NextIsUnique(pending: map<Serial, nat>, a: Serial, b: Serial)
    requires IsNext(pending, a) && IsNext(pending, b)
    ensures a == b
  {
  }

  ghost function Next(pending: map<Serial, nat>): (next: Serial)
    requires pending != map[]
    ensures IsNext(pending, next)
  {
    assert exists s :: IsNext(pending, s) by {
      var s := NextExists(pending, pending.Keys);
      assert IsNext(pending, s);
    }
    var s :| IsNext(pending, s);
    s
  }

  method NextRequest(pending: map<Serial, nat>) returns (next: Serial)
    requires pending != map[]
    ensures IsNext(pending, next) && next in pending
    ensures forall s :: s in pending ==> pending[next] < pending[s] || (pending[next] == pending[s] && next <= s)
  {
    var rest := pending.Keys;
    var best: Option<Serial> := None;
    while rest != {}
      invariant rest <= pending.Keys
      invariant best.None? ==> rest == pending.Keys
      invariant best.Some? ==> best.value in pending
      invariant best.Some? ==> forall s :: s in pending.Keys - rest && s != best.value ==>
                  Before(Task(best.value, pending[best.value]), Task(s, pending[s]))
      decreases |rest|
    {
      var s :| s in rest;
      rest := rest - {s};
      if best.None? || Before(Task(s, pending[s]), Task(best.value, pending[best.value])) {
        best := Some(s);
      }
    }
    next := best.value;
  }

  // ----- What every step keeps

  ghost predicate Kept(
    pending: map<Serial, nat>, inFlight: map<Serial, nat>, batches: map<nat, nat>, newest: nat, started: seq<Task>)
  {
    && pending.Keys !! inFlight.Keys
    && Batched(pending, inFlight, batches)
    && NoLater(batches, newest)
    && Ordered(started, pending, newest)
  }

  lemma EnqueueKeeps(
    pending: map<Serial, nat>, inFlight: map<Serial, nat>, batches: map<nat, nat>, newest: nat, started: seq<Task>,
    due: set<Serial>)
    requires Kept(pending, inFlight, batches, newest, started)
    requires due != {} && due !! pending.Keys && due !! inFlight.Keys
    ensures Kept(Enqueued(pending, due, newest + 1), inFlight, batches[newest + 1 := |due|], newest + 1, started)
  {
    hide Batched, NoLater, Ordered, Enqueued;
    NewestIsNew(batches, newest, |due|);
    BatchCounted(pending, inFlight, batches, newest + 1, due);
    BatchOrdered(started, pending, newest + 1, due);
    BatchKeys(pending, newest + 1, due);
  }

  /** A waiting task that is dropped, because nobody watches its device any more or because everything stops. */
  lemma DropKeeps(
    pending: map<Serial, nat>, inFlight: map<Serial, nat>, batches: map<nat, nat>, newest: nat, started: seq<Task>,
    serial: Serial)
    requires Kept(pending, inFlight, batches, newest, started) && serial in pending
    ensures Kept(pending - {serial}, inFlight, Finished(batches, pending[serial]), newest, started)
    ensures |pending - {serial}| == |pending| - 1
  {
    hide Batched, NoLater, Ordered, Finished;
    assert (pending - {serial}).Keys == pending.Keys - {serial};
    OrderedWithout(started, pending, newest, serial);
    FinishedNoLater(batches, pending[serial], newest);
    WaitingDropped(pending, inFlight, batches, serial);
  }

  lemma StartKeeps(
    pending: map<Serial, nat>, inFlight: map<Serial, nat>, batches: map<nat, nat>, newest: nat, started: seq<Task>,
    serial: Serial)
    requires Kept(pending, inFlight, batches, newest, started) && serial in pending && IsNext(pending, serial)
    ensures Kept(pending - {serial}, inFlight[serial := pending[serial]], batches, newest,
                 started + [Task(serial, pending[serial])])
    ensures |pending - {serial}| == |pending| - 1 && |inFlight[serial := pending[serial]]| == |inFlight| + 1
  {
    hide Batched, NoLater, Ordered, IsNext;
    LeastStarts(started, pending, newest, serial);
    assert (pending - {serial}).Keys == pending.Keys - {serial};
    assert inFlight[serial := pending[serial]].Keys == inFlight.Keys + {serial};
    WaitingStarts(pending, inFlight, batches, serial);
  }

  lemma CompletionKeeps(
    pending: map<Serial, nat>, inFlight: map<Serial, nat>, batches: map<nat, nat>, newest: nat, started: seq<Task>,
    serial: Serial)
    requires Kept(pending, inFlight, batches, newest, started) && serial in inFlight
    ensures Kept(pending, inFlight - {serial}, Finished(batches, inFlight[serial]), newest, started)
    ensures |inFlight - {serial}| == |inFlight| - 1
  {
    hide Batched, NoLater, Ordered, Finished;
    assert (inFlight - {serial}).Keys == inFlight.Keys - {serial};
    RunningDone(pending, inFlight, batches, serial);
    FinishedNoLater(batches, inFlight[serial], newest);
  }

  // ----- The scheduler

  /** What wakes the loop. */
  datatype Event = Done | Woken | TimerFired | Completion(serial: Serial, result: Outcome)

  /**
   One turn of the loop's environment: whether the context is over when the turn begins, the subscribed devices that
   are due, in order, whether a device is still subscribed when its turn to start comes, and what wakes the loop.
   */
  datatype Turn = Turn(over: bool, due: seq<Serial>, subscribed: (Serial, nat) -> bool, event: Event)

  // ----- What the loop does, turn by turn

  /** What the loop works on: the tasks that wait, run and ever started, the newest batch, whether a cancellation was seen. */
  datatype Board = Board(
    pending: map<Serial, nat>, inFlight: map<Serial, nat>, started: seq<Task>, newest: nat, cancelling: bool)

  function WithDue(b: Board, candidates: seq<Serial>): Board {
    var due := Newly(candidates, b.pending, b.inFlight);
    if due == {} then b else b.(pending := Enqueued(b.pending, due, b.newest + 1), newest := b.newest + 1)
  }

  /** The next task leaves the wait, to run or, when nobody watches its device any more, to be dropped. */
  ghost function OneStarted(b: Board, subscribed: bool): Board
    requires b.pending != map[]
  {
    var s := Next(b.pending);
    if subscribed then
      b.(pending := b.pending - {s}, inFlight := b.inFlight[s := b.pending[s]],
         started := b.started + [Task(s, b.pending[s])])
    else b.(pending := b.pending - {s})
  }

  /** What was said of a device when its turn to start came. */
  ghost predicate Answered(subscribed: (Serial, nat) -> bool, serial: Serial, there: bool) {
    exists n :: subscribed(serial, n) == there
  }

  predicate HasRoom(b: Board, bound: nat) { !b.cancelling && |b.inFlight| < bound && b.pending != map[] }

  /** Tasks start in order while there is room; the answers to whether a device is watched are numbered as asked. */
  ghost function AllStarted(b: Board, bound: nat, subscribed: (Serial, nat) -> bool, asked: nat): Board
    decreases |b.pending|
  {
    if !HasRoom(b, bound) then b
    else
      var s := Next(b.pending);
      assert (b.pending - {s}).Keys == b.pending.Keys - {s};
      AllStarted(OneStarted(b, subscribed(s, asked)), bound, subscribed, asked + 1)
  }

  lemma AllStartedStep(b: Board, bound: nat, subscribed: (Serial, nat) -> bool, asked: nat)
    ensures AllStarted(b, bound, subscribed, asked) ==
            if HasRoom(b, bound) then AllStarted(OneStarted(b, subscribed(Next(b.pending), asked)), bound, subscribed, asked + 1) else b
  {
  }

  /** The top of the loop: a cancellation seen here drops what waits; one seen already is not looked for again. */
  ghost function Admitted(b: Board, bound: nat, turn: Turn): Board {
    if b.cancelling then b
    else if turn.over then b.(pending := map[], cancelling := true)
    else AllStarted(WithDue(b, turn.due), bound, turn.subscribed, 0)
  }

  function Heard(b: Board, event: Event): Board {
    match event
    case Done => b.(cancelling := true)
    case Completion(serial, _) => b.(inFlight := b.inFlight - {serial})
    case _ => b
  }

  /** The board when a turn begins. */
  ghost function AtTurn(b: Board, bound: nat, turns: seq<Turn>, t: nat): Board
    requires t <= |turns|
  {
    if t == 0 then b else Heard(Admitted(AtTurn(b, bound, turns, t - 1), bound, turns[t - 1]), turns[t - 1].event)
  }

  ghost function Decided(b: Board, bound: nat, turns: seq<Turn>, t: nat): Board
    requires t < |turns|
  {
    Admitted(AtTurn(b, bound, turns, t), bound, turns[t])
  }

  predicate IsOver(b: Board) { b.cancelling && b.inFlight == map[] }

  /** The first sight of the cancellation is this turn's select and not the top of any turn so far. */
  predicate SeenInSelect(turns: seq<Turn>, u: nat) {
    && u < |turns| && turns[u].event == Done
    && (forall v :: 0 <= v <= u ==> !turns[v].over) && (forall v :: 0 <= v < u ==> turns[v].event != Done)
  }

  lemma {:induction false} AllStartedFills(b: Board, bound: nat, subscribed: (Serial, nat) -> bool, asked: nat)
    ensures var t := AllStarted(b, bound, subscribed, asked);
            && t.cancelling == b.cancelling && t.newest == b.newest && b.started <= t.started
            && (!b.cancelling && |b.inFlight| <= bound ==> |t.inFlight| <= bound && (t.pending == map[] || |t.inFlight| == bound))
    decreases |b.pending|
  {
    hide Next;
    if HasRoom(b, bound) {
      var s := Next(b.pending);
      assert (b.pending - {s}).Keys == b.pending.Keys - {s};
      assert b.inFlight[s := b.pending[s]].Keys == b.inFlight.Keys + {s};
      AllStartedFills(OneStarted(b, subscribed(s, asked)), bound, subscribed, asked + 1);
    }
  }

  /** Whoever waited still waits, or has started when it was found watched, or was dropped when it was not. */
  lemma {:induction false} AllStartedAnswers(
    b: Board, bound: nat, subscribed: (Serial, nat) -> bool, asked: nat, s: Serial)
    requires s in b.pending
    ensures var t := AllStarted(b, bound, subscribed, asked);
            || (s in t.pending && t.pending[s] == b.pending[s])
            || (Task(s, b.pending[s]) in t.started && Answered(subscribed, s, true))
            || Answered(subscribed, s, false)
    decreases |b.pending|
  {
    hide Next;
    if HasRoom(b, bound) {
      var next := Next(b.pending);
      assert (b.pending - {next}).Keys == b.pending.Keys - {next};
      var c := OneStarted(b, subscribed(next, asked));
      if s == next {
        assert Answered(subscribed, s, subscribed(s, asked));
        AllStartedFills(c, bound, subscribed, asked + 1);
        assert subscribed(s, asked) ==> c.started[|b.started|] == Task(s, b.pending[s]);
      } else {
        AllStartedAnswers(c, bound, subscribed, asked + 1, s);
      }
    }
  }

  lemma AdmittedStays(b: Board, bound: nat, turn: Turn)
    ensures var t := Admitted(b, bound, turn);
            && t.cancelling == (b.cancelling || turn.over)
            && (b.cancelling ==> t == b) && (!b.cancelling && turn.over ==> t.pending == map[])
  {
    AllStartedFills(WithDue(b, turn.due), bound, turn.subscribed, 0);
    hide AllStarted, WithDue;
  }

  predicate Cancels(turn: Turn) { turn.over || turn.event == Done }

  /** Once the cancellation has been seen, what waits stays as it was after the turn that saw it. */
  lemma {:induction false} WaitsSince(b: Board, bound: nat, turns: seq<Turn>, t: nat)
    requires t <= |turns| && !b.cancelling
    ensures var now := AtTurn(b, bound, turns, t);
            && (now.cancelling <==> exists u :: 0 <= u < t && Cancels(turns[u]))
            && (forall u: nat :: u < t && SeenInSelect(turns, u) ==> now.pending == Decided(b, bound, turns, u).pending)
            && (now.cancelling && (forall u: nat :: u < t ==> !SeenInSelect(turns, u)) ==> now.pending == map[])
    decreases t
  {
    hide Admitted, SeenInSelect;
    if t > 0 {
      var turn, before := turns[t - 1], AtTurn(b, bound, turns, t - 1);
      WaitsSince(b, bound, turns, t - 1);
      AdmittedStays(before, bound, turn);
      SeenOnce(turns, t - 1);
    }
  }

  lemma SeenOnce(turns: seq<Turn>, t: nat)
    requires t < |turns|
    ensures SeenInSelect(turns, t) <==> !turns[t].over && turns[t].event == Done && forall u :: 0 <= u < t ==> !Cancels(turns[u])
    ensures forall u: nat :: u < t && SeenInSelect(turns, u) ==> Cancels(turns[u])
  {
  }

  /** So at a return something is left waiting exactly when the cancellation was first seen in a select while it waited. */
  lemma WhatIsLeft(b: Board, bound: nat, turns: seq<Turn>, t: nat)
    requires t < |turns| && !b.cancelling && IsOver(Decided(b, bound, turns, t))
    ensures Decided(b, bound, turns, t).pending != map[] <==>
            exists u: nat :: u <= t && SeenInSelect(turns, u) && Decided(b, bound, turns, u).pending != map[]
  {
    hide Admitted, SeenInSelect;
    WaitsSince(b, bound, turns, t);
    AdmittedStays(AtTurn(b, bound, turns, t), bound, turns[t]);
    SeenOnce(turns, t);
  }

  class Scheduler {
    const bound: nat
    var pending: map<Serial, nat>
    var inFlight: map<Serial, nat>
    var batches: map<nat, nat>
    var nextBatch: nat
    var cancelling: bool
    var ticks: nat
    var totals: Outcome
    // Every capture started and the result of every one that completed; what became of the others ever enqueued.
    ghost var started: seq<Task>
    ghost var results: seq<Outcome>
    ghost var enqueued: nat
    ghost var skipped: nat
    ghost var drained: nat

    ghost predicate Valid()
      reads this
    {
      && 0 < bound && |inFlight| <= bound && ticks == nextBatch
      && Kept(pending, inFlight, batches, nextBatch, started)
      && totals == SumOf(results)
      && |started| == |inFlight| + |results|
      && enqueued == |pending| + |started| + skipped + drained
    }

    ghost function ToBoard(): Board
      reads this
    {
      Board(pending, inFlight, started, nextBatch, cancelling)
    }

    constructor (bound: nat)
      requires bound > 0
      ensures ToBoard() == Board(map[], map[], [], 0, false)
      ensures Valid() && fresh(this) && !cancelling && started == [] && pending == map[] && inFlight == map[]
      ensures this.bound == bound && results == [] && skipped == drained == 0
    {
      this.bound := bound;
      pending, inFlight, batches, nextBatch, cancelling := map[], map[], map[], 0, false;
      ticks, totals := 0, NOTHING;
      started, results, enqueued, skipped, drained := [], [], 0, 0, 0;
    }

    method FinishBatchDevice(batch: nat)
      modifies this`batches
      ensures batches == Finished(old(batches), batch)
    {
      if batch !in batches {
        return;
      }
      var remaining := batches[batch] as int - 1;
      if remaining > 0 {
        batches := batches[batch := remaining];
        return;
      }
      batches := batches - {batch};
    }

    /** The devices that are due and neither wait nor run become one batch. */
    method EnqueueDue(candidates: seq<Serial>)
      requires Valid() && Distinct(candidates)
      modifies this`pending, this`batches, this`nextBatch, this`ticks, this`enqueued
      ensures Valid()
      ensures ToBoard() == WithDue(old(ToBoard()), candidates)
      ensures enqueued == old(enqueued) + NewlyCount(candidates, old(pending), inFlight)
    {
      hide Kept, SumOf, Enqueued, Distinct, Elements;
      var due := NewlyDue(candidates, pending.Keys + inFlight.Keys);
      DistinctSize(due);
      if due == [] {
        return;
      }
      AddBatch(due);
    }

    method AddBatch(due: seq<Serial>)
      requires Valid() && |due| == |Elements(due)| && Elements(due) != {}
      requires Elements(due) !! pending.Keys && Elements(due) !! inFlight.Keys
      modifies this`pending, this`batches, this`nextBatch, this`ticks, this`enqueued
      ensures Valid() && nextBatch == old(nextBatch) + 1 && pending == Enqueued(old(pending), Elements(due), nextBatch)
      ensures enqueued == old(enqueued) + |due|
    {
      hide Kept, SumOf, Enqueued, Elements;
      var batch := nextBatch + 1;
      var waiting := PutAll(pending, due, batch);
      EnqueueKeeps(pending, inFlight, batches, nextBatch, started, Elements(due));
      BatchSize(pending, batch, Elements(due));
      pending, batches, nextBatch, ticks := waiting, batches[batch := |due|], batch, ticks + 1;
      enqueued := enqueued + |due|;
    }

    /** Starts waiting tasks in order while there is room; one whose device nobody watches any more is dropped. */
    method StartPending(subscribed: (Serial, nat) -> bool)
      requires Valid()
      modifies this`pending, this`inFlight, this`batches, this`started, this`skipped
      ensures Valid() && ToBoard() == AllStarted(old(ToBoard()), bound, subscribed, 0)
      ensures !cancelling ==> pending == map[] || |inFlight| == bound
      ensures (forall s, n :: subscribed(s, n)) ==> skipped == old(skipped)
    {
      hide Kept, SumOf, IsNext, OneStarted, AllStarted, Next;
      var asked := 0;
      while !cancelling && |inFlight| < bound && pending != map[]
        invariant Valid() && AllStarted(old(ToBoard()), bound, subscribed, 0) == AllStarted(ToBoard(), bound, subscribed, asked)
        invariant (forall s, n :: subscribed(s, n)) ==> skipped == old(skipped)
        decreases |pending|
      {
        AllStartedStep(ToBoard(), bound, subscribed, asked);
        var serial := NextRequest(pending);
        NextIsUnique(pending, serial, Next(pending));
        StartOne(serial, subscribed(serial, asked));
        asked := asked + 1;
      }
      AllStartedStep(ToBoard(), bound, subscribed, asked);
    }

    method StartOne(serial: Serial, subscribed: bool)
      requires Valid() && !cancelling && |inFlight| < bound && IsNext(pending, serial)
      modifies this`pending, this`inFlight, this`batches, this`started, this`skipped
      ensures Valid() && ToBoard() == OneStarted(old(ToBoard()), subscribed)
      ensures |pending| < |old(pending)| && (subscribed ==> skipped == old(skipped))
    {
      NextIsUnique(pending, serial, Next(pending));
      hide Kept, SumOf, IsNext, Next;
      if !subscribed {
        Skip(serial);
      } else {
        Launch(serial);
      }
    }

    method Skip(serial: Serial)
      requires Valid() && serial in pending
      modifies this`pending, this`batches, this`skipped
      ensures Valid() && pending == old(pending) - {serial} && |pending| < |old(pending)|
    {
      hide Kept, SumOf, Finished;
      var batch := pending[serial];
      DropKeeps(pending, inFlight, batches, nextBatch, started, serial);
      pending := pending - {serial};
      skipped := skipped + 1;
      FinishBatchDevice(batch);
    }

    method Launch(serial: Serial)
      requires Valid() && |inFlight| < bound && IsNext(pending, serial) && serial in pending
      modifies this`pending, this`inFlight, this`started
      ensures Valid() && pending == old(pending) - {serial} && |pending| < |old(pending)|
      ensures inFlight == old(inFlight)[serial := old(pending)[serial]]
      ensures started == old(started) + [Task(serial, old(pending)[serial])]
    {
      hide Kept, SumOf, IsNext;
      var batch := pending[serial];
      StartKeeps(pending, inFlight, batches, nextBatch, started, serial);
      pending := pending - {serial};
      inFlight := inFlight[serial := batch];
      started := started + [Task(serial, batch)];
    }

    /** A cancellation seen at the top of the loop drops everything that waits. */
    method Drain()
      requires Valid()
      modifies this`pending, this`batches, this`cancelling, this`drained
      ensures Valid() && ToBoard() == old(ToBoard()).(pending := map[], cancelling := true)
    {
      hide Kept, SumOf, Finished;
      cancelling := true;
      while pending != map[]
        invariant Valid() && cancelling
        decreases |pending|
      {
        var serial :| serial in pending;
        var batch := pending[serial];
        DropKeeps(pending, inFlight, batches, nextBatch, started, serial);
        pending := pending - {serial};
        drained := drained + 1;
        FinishBatchDevice(batch);
      }
    }

    method Complete(serial: Serial, result: Outcome)
      requires Valid() && serial in inFlight
      modifies this`inFlight, this`batches, this`totals, this`results
      ensures Valid() && inFlight == old(inFlight) - {serial} && results == old(results) + [result]
      ensures |inFlight| < |old(inFlight)|
    {
      hide Kept, Finished;
      var batch := inFlight[serial];
      CompletionKeeps(pending, inFlight, batches, nextBatch, started, serial);
      inFlight := inFlight - {serial};
      totals := Merged(totals, result);
      results := results + [result];
      assert results[..|results| - 1] == old(results);
      FinishBatchDevice(batch);
    }

    /**
     The loop, over whatever its environment does. It returns in the first turn that finds the cancellation seen and
     nothing running; then every capture ever started is in the totals exactly once. Something is left waiting exactly
     when the cancellation was first seen in a select while something waited: the top of the loop, which drops what
     waits, does not look again.
     */
    method Run(turns: seq<Turn>) returns (returned: bool, ghost turn: nat)
      requires Valid() && !cancelling
      requires forall t :: 0 <= t < |turns| ==> Distinct(turns[t].due)
      modifies this
      ensures Valid() && old(started) <= started && |inFlight| <= bound
      ensures forall i, j :: 0 <= i < j < |started| ==>
                started[i].batch < started[j].batch || (started[i].batch == started[j].batch && started[i].serial < started[j].serial)
      ensures forall t :: 0 <= t < turn <= |turns| ==> !IsOver(Decided(old(ToBoard()), bound, turns, t))
      ensures if returned then turn < |turns| && ToBoard() == Decided(old(ToBoard()), bound, turns, turn) && IsOver(ToBoard())
              else turn == |turns| && ToBoard() == AtTurn(old(ToBoard()), bound, turns, turn)
      ensures returned ==> |results| == |started| && totals == SumOf(results) && (batches == map[] <==> pending == map[])
      ensures returned ==> (pending != map[] <==>
                exists u: nat :: u <= turn && SeenInSelect(turns, u) && Decided(old(ToBoard()), bound, turns, u).pending != map[])
    {
      hide Valid, SumOf, Distinct, Admitted, Heard;
      returned, turn := false, 0;
      ghost var b := ToBoard();
      for t := 0 to |turns|
        invariant Valid() && old(started) <= started && turn == t
        invariant ToBoard() == AtTurn(b, bound, turns, t)
        invariant forall u :: 0 <= u < t ==> !IsOver(Decided(b, bound, turns, u))
      {
        returned := Admit(turns[t]);
        if returned {
          NothingRuns();
          StartsInOrder();
          WhatIsLeft(b, bound, turns, t);
          return;
        }
        Hear(turns[t].event);
        turn := t + 1;
      }
      StartsInOrder();
    }

    /** Whatever has happened, captures started by batch and then by serial, and no more run than may. */
    lemma StartsInOrder()
      requires Valid()
      ensures |inFlight| <= bound
      ensures forall i, j :: 0 <= i < j < |started| ==>
                started[i].batch < started[j].batch || (started[i].batch == started[j].batch && started[i].serial < started[j].serial)
    {
      hide SumOf, Batched;
    }

    /** The top of the loop: a cancellation is looked for, then due devices are admitted or the end is decided. */
    method Admit(turn: Turn) returns (over: bool)
      requires Valid() && Distinct(turn.due)
      modifies this
      ensures Valid() && old(started) <= started && results == old(results)
      ensures ToBoard() == Admitted(old(ToBoard()), bound, turn) && over == IsOver(ToBoard())
      ensures !cancelling ==> enqueued == old(enqueued) + NewlyCount(turn.due, old(pending), old(inFlight))
      ensures !cancelling ==> pending == map[] || |inFlight| == bound
    {
      hide Valid, SumOf, Distinct, Newly, NewlyCount, AllStarted, Enqueued;
      if turn.over && !cancelling {
        Drain();
      }
      over := false;
      if !cancelling {
        EnqueueDue(turn.due);
        ghost var b := ToBoard();
        StartPending(turn.subscribed);
        AllStartedFills(b, bound, turn.subscribed, 0);
      } else if inFlight == map[] {
        over := true;
      }
    }

    /** When nothing runs, every capture started is in the totals. */
    lemma NothingRuns()
      requires Valid() && inFlight == map[]
      ensures |results| == |started| && totals == SumOf(results) && (batches == map[] <==> pending == map[])
    {
      NothingOutstanding(pending, inFlight, batches);
    }

    method Hear(event: Event)
      requires Valid()
      modifies this`cancelling, this`inFlight, this`batches, this`totals, this`results
      ensures Valid() && ToBoard() == Heard(old(ToBoard()), event)
      ensures results == old(results) + if event.Completion? && event.serial in old(inFlight) then [event.result] else []
    {
      hide Kept, SumOf;
      match event
      case Done => cancelling := true;
      case Woken =>
      case TimerFired =>
      case Completion(serial, result) => Settle(serial, result);
    }

    /** A completion of a capture that is not running changes nothing. */
    method Settle(serial: Serial, result: Outcome)
      requires Valid()
      modifies this`inFlight, this`batches, this`totals, this`results
      ensures Valid() && inFlight == old(inFlight) - {serial}
      ensures results == old(results) + if serial in old(inFlight) then [result] else []
    {
      hide Kept, SumOf;
      if serial in inFlight {
        Complete(serial, result);
      } else {
        assert inFlight - {serial} == inFlight;
      }
    }
  }

  /** With nothing running, batches are outstanding exactly when something waits. */
  lemma NothingOutstanding(pending: map<Serial, nat>, inFlight: map<Serial, nat>, batches: map<nat, nat>)
    requires Batched(pending, inFlight, batches) && inFlight == map[]
    ensures batches == map[] <==> pending == map[]
  {
    if pending == map[] {
      assert forall b: nat :: Outstanding(pending, inFlight, b) == 0;
      assert batches.Keys == {};
    } else {
      var s :| s in pending;
      assert s in TasksOf(pending, pending[s]);
      assert pending[s] in batches;
    }
  }

  // ----- A cancellation seen in the select

  /** Two devices are due, one capture may run, the cancellation is seen in the first select, and the capture completes. */
  const SEEN_LATE: seq<Turn> := [
    Turn(false, [1, 2], (_, _) => true, Done),
    Turn(true, [], (_, _) => true, Completion(1, NOTHING)),
    Turn(true, [], (_, _) => true, Woken)]

  lemma OneOfTwoStarts(b: Board)
    requires b == Board(map[], map[], [], 0, false)
    ensures var t := Admitted(b, 1, SEEN_LATE[0]); t.pending == map[2 := 1] && t.inFlight == map[1 := 1] && !t.cancelling
  {
    var c := WithDue(b, [1, 2]);
    assert Newly([1, 2], map[], map[]) == {1, 2} by {
      assert 1 in [1, 2] && 2 in [1, 2];
    }
    assert c.pending == map[1 := 1, 2 := 1];
    assert IsNext(c.pending, 1);
    NextIsUnique(c.pending, 1, Next(c.pending));
    hide Next;
    var d := OneStarted(c, true);
    assert d.inFlight == map[1 := 1] && d.pending == map[2 := 1];
    assert |d.inFlight.Keys| == 1;
    assert AllStarted(d, 1, SEEN_LATE[0].subscribed, 1) == d;
  }

  /** From a turn whose select sees the cancellation: one capture runs out its time, and the next turn is the last. */
  lemma RunsOut(b: Board, bound: nat, turns: seq<Turn>, waiting: map<Serial, nat>)
    requires |turns| == 3 && turns[0].event == Done && turns[1].event == Completion(1, NOTHING)
    requires var t := Decided(b, bound, turns, 0); t.pending == waiting && t.inFlight == map[1 := 1] && !t.cancelling
    ensures !IsOver(Decided(b, bound, turns, 0)) && !IsOver(Decided(b, bound, turns, 1)) && IsOver(Decided(b, bound, turns, 2))
    ensures Decided(b, bound, turns, 2).pending == waiting
  {
    hide AllStarted, WithDue;
    var first := AtTurn(b, bound, turns, 1);
    assert first.pending == waiting && first.inFlight == map[1 := 1] && first.cancelling;
    assert Decided(b, bound, turns, 1) == first;
    var second := AtTurn(b, bound, turns, 2);
    assert second.inFlight == map[] && second.pending == waiting && second.cancelling;
  }

  lemma SeenLateTurns()
    ensures |SEEN_LATE| == 3 && SEEN_LATE[0].event == Done && SEEN_LATE[1].event == Completion(1, NOTHING)
    ensures forall t :: 0 <= t < 3 ==> Distinct(SEEN_LATE[t].due)
  {
  }

  lemma FirstTurn(b: Board, bound: nat, turns: seq<Turn>)
    requires turns != []
    ensures Decided(b, bound, turns, 0) == Admitted(b, bound, turns[0])
  {
    assert AtTurn(b, bound, turns, 0) == b;
  }

  lemma SeenLate(b: Board)
    requires b == Board(map[], map[], [], 0, false)
    ensures |SEEN_LATE| == 3 && forall t :: 0 <= t < 3 ==> Distinct(SEEN_LATE[t].due)
    ensures !IsOver(Decided(b, 1, SEEN_LATE, 0)) && !IsOver(Decided(b, 1, SEEN_LATE, 1)) && IsOver(Decided(b, 1, SEEN_LATE, 2))
    ensures Decided(b, 1, SEEN_LATE, 2).pending == map[2 := 1]
  {
    SeenLateTurns();
    hide AllStarted, WithDue, Admitted, IsOver, Decided, AtTurn, Distinct;
    OneOfTwoStarts(b);
    FirstTurn(b, 1, SEEN_LATE);
    RunsOut(b, 1, SEEN_LATE, map[2 := 1]);
  }

  /** The loop returns with the other device still waiting and its batch outstanding. */
  method LeftWaiting() returns (s: Scheduler, returned: bool)
    ensures s.Valid() && returned && s.inFlight == map[] && s.pending == map[2 := 1] && s.batches != map[]
  {
    s := new Scheduler(1);
    ghost var b, turn := s.ToBoard(), 0;
    SeenLate(b);
    returned, turn := LastOfThree(s, SEEN_LATE);
  }

  /** A run that is over in its third turn and no earlier returns there. */
  method LastOfThree(s: Scheduler, turns: seq<Turn>) returns (returned: bool, ghost turn: nat)
    requires s.Valid() && !s.cancelling && |turns| == 3 && forall t :: 0 <= t < 3 ==> Distinct(turns[t].due)
    requires var b := s.ToBoard();
             && !IsOver(Decided(b, s.bound, turns, 0)) && !IsOver(Decided(b, s.bound, turns, 1))
             && IsOver(Decided(b, s.bound, turns, 2))
    modifies s
    ensures s.Valid() && returned && s.ToBoard() == Decided(old(s.ToBoard()), s.bound, turns, 2) && IsOver(s.ToBoard())
    ensures s.batches == map[] <==> s.pending == map[]
  {
    hide Kept, SumOf, Distinct, Decided, AtTurn, Admitted, SeenInSelect, IsOver;
    returned, turn := s.Run(turns);
    assert turn != 0 && turn != 1;
  }
}
