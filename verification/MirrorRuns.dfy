/** What holds after every run of one live session. */
module MirrorRuns {
  import opened Wrappers
  import opened MirrorMemory
  import opened MirrorSteps

  /** The steps can be taken one after the other. */
  predicate Runs(s: Session, steps: seq<Step>)
    decreases |steps|
  {
    steps == [] || (Can(s, steps[0]) && Runs(Do(s, steps[0]), steps[1..]))
  }

  function After(s: Session, steps: seq<Step>): Session
    requires Runs(s, steps)
    decreases |steps|
  {
    if steps == [] then s else After(Do(s, steps[0]), steps[1..])
  }

  lemma {:induction false} RunKeeps(s: Session, steps: seq<Step>)
    requires Inv(s) && Runs(s, steps)
    ensures Inv(After(s, steps))
    decreases |steps|
  {
    if steps != [] {
      StepKeeps(s, steps[0]);
      RunKeeps(Do(s, steps[0]), steps[1..]);
    }
  }

  lemma RunFromNew(opening: Purpose, steps: seq<Step>)
    requires Runs(NewSession(opening), steps)
    ensures Inv(After(NewSession(opening), steps))
  {
    NewSessionKeeps(opening);
    RunKeeps(NewSession(opening), steps);
  }

  /**
   No lost upgrade: while the worker reads a published ambient stream nobody has cancelled, every operator viewer that
   holds a place is still inside its attach call, and is about to cancel this very dial.
   */
  lemma NoLostUpgrade(opening: Purpose, steps: seq<Step>, v: nat)
    requires Runs(NewSession(opening), steps)
    requires var s := After(NewSession(opening), steps);
             && s.worker.pc == Reading && s.mem.dialed == Some(Ambient) && s.worker.dial !in s.cancelled
             && v in s.viewers && s.viewers[v].purpose == Operator && s.viewers[v].hold == Held
    ensures var s := After(NewSession(opening), steps);
            && (s.viewers[v].phase == Asking || s.viewers[v].phase == Cancelling(s.worker.dial))
            && (s.viewers[v].phase == Asking ==> DialToCancel(s.mem, Operator) == Some(s.worker.dial))
  {
    RunFromNew(opening, steps);
    var s := After(NewSession(opening), steps);
    hide Runs, After;
    assert v in Counted(s.viewers);
  }

  /** The worker that next picks a purpose while an operator viewer holds a place dials for the operator. */
  lemma UpgradeIsDialed(opening: Purpose, steps: seq<Step>, v: nat)
    requires Runs(NewSession(opening), steps)
    requires var s := After(NewSession(opening), steps);
             && Can(s, LoadToPick) && v in s.viewers && s.viewers[v].purpose == Operator && s.viewers[v].hold == Held
    ensures Do(After(NewSession(opening), steps), LoadToPick).worker.pc == Beginning(Operator)
  {
    RunFromNew(opening, steps);
    var s := After(NewSession(opening), steps);
    hide Runs, After;
    assert v in Counted(s.viewers);
  }

  /** Dials never get weaker, nothing is dialed after the operator's profile, and an operator's session dials once. */
  lemma DialsNeverWeaken(opening: Purpose, steps: seq<Step>)
    requires Runs(NewSession(opening), steps)
    ensures var dials := After(NewSession(opening), steps).dials;
            && (forall i, j :: 0 <= i < j < |dials| ==> Rank(Some(dials[i])) <= Rank(Some(dials[j])))
            && (forall i :: 0 <= i < |dials| && dials[i] == Operator ==> i == |dials| - 1)
            && (opening == Operator ==> |dials| <= 1)
  {
    RunFromNew(opening, steps);
    OpeningStays(NewSession(opening), steps);
    hide Runs, After;
  }

  lemma {:induction false} OpeningStays(s: Session, steps: seq<Step>)
    requires Runs(s, steps)
    ensures After(s, steps).mem.opening == s.mem.opening
    decreases |steps|
  {
    if steps != [] {
      StepKeepsOpening(s, steps[0]);
      OpeningStays(Do(s, steps[0]), steps[1..]);
    }
  }

  lemma StepKeepsOpening(s: Session, step: Step)
    requires Can(s, step)
    ensures Do(s, step).mem.opening == s.mem.opening
  {
    if IsViewerStep(step) {
      ViewerStepFrame(s, step);
    } else if IsOpenStep(step) {
      OpenStepFrame(s, step);
    } else if IsCarryStep(step) {
      CarryStepFrame(s, step);
    } else if IsCloseStep(step) {
      CloseStepFrame(s, step);
    } else {
      EndStepFrame(s, step);
    }
    hide DoViewer, DoOpen, DoCarry, DoClose, DoEnd, CanViewer, CanOpen, CanCarry, CanClose, CanEnd;
  }

  /** At most one stream is open, it is the worker's newest dial, and none is open when the device is dialed again. */
  lemma OneStreamAtATime(opening: Purpose, steps: seq<Step>)
    requires Runs(NewSession(opening), steps)
    ensures var s := After(NewSession(opening), steps);
            && |s.open| <= 1 && (forall d :: d in s.open ==> d == |s.dials| - 1)
            && (s.worker.pc.Beginning? || s.worker.pc == Dialing ==> s.open == {})
            && (s.mem.stream.Some? ==> s.open == {s.mem.stream.value})
            && s.streams == s.released + s.unreleased + |s.open|
  {
    RunFromNew(opening, steps);
    hide Runs, After;
  }

  /** `finished` closes only after the last release: nothing is open, the end is over, every viewer has been let go. */
  lemma FinishedMeansReleased(opening: Purpose, steps: seq<Step>)
    requires Runs(NewSession(opening), steps)
    requires IsOver(After(NewSession(opening), steps).worker.pc)
    ensures var s := After(NewSession(opening), steps);
            && s.open == {} && s.streams == s.released + s.unreleased && s.end == Over
            && s.mem.closed && s.mem.stream == None && s.mem.viewers == map[] && s.mem.operatorViewers == 0
  {
    RunFromNew(opening, steps);
    NobodyLeft(After(NewSession(opening), steps));
    hide Runs, After, Counted;
  }

  /** After an end's evictions nobody is counted. */
  lemma NobodyLeft(s: Session)
    requires Inv(s) && s.end != Live && !s.end.Evicting?
    ensures s.mem.operatorViewers == 0
  {
    assert Counted(s.viewers) == {};
  }

  /** The idle timer is armed only while no viewer is recorded. */
  lemma IdleMeansUnwatched(opening: Purpose, steps: seq<Step>)
    requires Runs(NewSession(opening), steps)
    ensures var s := After(NewSession(opening), steps);
            Can(s, TimerFires) ==> s.mem.viewers == map[] && !s.mem.closed
  {
    RunFromNew(opening, steps);
    hide Runs, After;
  }

  /**
   But a timer that has fired is not called back: a viewer that attaches before its callback runs is attached to a
   session that then ends for want of viewers.
   */
  lemma FiredTimerEndsWatched()
    ensures exists s, v: nat ::
              && Reachable(Operator, s)
              && s.mem.closed && s.mem.endClass == Some(ViewerDetached)
              && v in s.viewers && s.viewers[v].hold == Held && s.viewers[v].phase == Settled
  {
    var s5 := LastViewerLeaves();
    hide Reachable;
    Reach(Operator, s5, Attach(Operator));
    var s6 := Do(s5, Attach(Operator));
    Reach(Operator, s6, AskProfile(2));
    var s7 := Do(s6, AskProfile(2));
    Reach(Operator, s7, BeginEnd(ByIdle, ViewerDetached));
    var s8 := Do(s7, BeginEnd(ByIdle, ViewerDetached));
    assert s8.viewers[2].hold == Held;
  }

  /**
   Exactly then: the end a fired timer begins evicts nobody if and only if every viewer that attached after the timer
   last fired has detached again.
   */
  lemma IdleEndEvicts(opening: Purpose, steps: seq<Step>, class': EndClass)
    requires Runs(NewSession(opening), steps)
    requires Can(After(NewSession(opening), steps), BeginEnd(ByIdle, class'))
    ensures var s := After(NewSession(opening), steps);
            Do(s, BeginEnd(ByIdle, class')).end == Evicting({}) <==>
            forall v :: v in s.viewers && v > s.firedAt ==> s.viewers[v].hold == Gone
  {
    RunFromNew(opening, steps);
    var s := After(NewSession(opening), steps);
    hide Runs, After, WorkAgrees, UpgradePending;
    var end := Do(s, BeginEnd(ByIdle, class')).end;
    assert end == Evicting(s.mem.viewers.Keys);
    if forall v :: v in s.viewers && v > s.firedAt ==> s.viewers[v].hold == Gone {
      assert forall v :: v !in s.mem.viewers;
    }
  }

  /** The only viewer leaves, and the timer that arms fires. */
  lemma LastViewerLeaves() returns (s: Session)
    ensures Reachable(Operator, s) && s.fired == 1 && s.end == Live && !s.mem.closed && s.mem.nextID == 1
    ensures s.mem.stream == None
  {
    hide Reachable;
    var s0 := NewSession(Operator);
    NewIsReachable(Operator);
    Reach(Operator, s0, Attach(Operator));
    var s1 := Do(s0, Attach(Operator));
    Reach(Operator, s1, AskProfile(1));
    var s2 := Do(s1, AskProfile(1));
    Reach(Operator, s2, Step.GiveBack(1));
    var s3 := Do(s2, Step.GiveBack(1));
    Reach(Operator, s3, Step.Detach(1));
    var s4 := Do(s3, Step.Detach(1));
    assert s4.mem.viewers == map[];
    Reach(Operator, s4, TimerFires);
    s := Do(s4, TimerFires);
  }

  ghost predicate Reachable(opening: Purpose, s: Session) {
    exists steps :: Runs(NewSession(opening), steps) && s == After(NewSession(opening), steps)
  }

  lemma NewIsReachable(opening: Purpose)
    ensures Reachable(opening, NewSession(opening))
  {
    assert Runs(NewSession(opening), []) && After(NewSession(opening), []) == NewSession(opening);
  }

  lemma Reach(opening: Purpose, s: Session, step: Step)
    requires Reachable(opening, s) && Can(s, step)
    ensures Reachable(opening, Do(s, step))
  {
    hide Can, Do;
    var steps :| Runs(NewSession(opening), steps) && s == After(NewSession(opening), steps);
    RunThen(NewSession(opening), steps, step);
  }

  lemma {:induction false} RunThen(s: Session, steps: seq<Step>, step: Step)
    requires Runs(s, steps) && Can(After(s, steps), step)
    ensures Runs(s, steps + [step]) && After(s, steps + [step]) == Do(After(s, steps), step)
    decreases |steps|
  {
    hide Can, Do;
    if steps == [] {
      assert [step][1..] == [];
    } else {
      RunThen(Do(s, steps[0]), steps[1..], step);
      assert (steps + [step])[1..] == steps[1..] + [step];
    }
  }

  /** A session ends once: the class it ended with is the one that stays. */
  lemma {:induction false} EndIsRecordedOnce(s: Session, steps: seq<Step>)
    requires Inv(s) && s.mem.closed && Runs(s, steps)
    ensures After(s, steps).mem.closed && After(s, steps).mem.endClass == s.mem.endClass
    decreases |steps|
  {
    if steps != [] {
      StepKeeps(s, steps[0]);
      ClosedStep(s, steps[0]);
      hide Inv, Can, Do;
      EndIsRecordedOnce(Do(s, steps[0]), steps[1..]);
    }
  }

  lemma ClosedStep(s: Session, step: Step)
    requires Inv(s) && s.mem.closed && Can(s, step)
    ensures Do(s, step).mem.closed && Do(s, step).mem.endClass == s.mem.endClass
  {
    if IsViewerStep(step) {
      ViewerStepKeepsClass(s, step);
    } else if IsOpenStep(step) {
      OpenStepFrame(s, step);
    } else if IsCarryStep(step) {
      CarryStepFrame(s, step);
    } else if IsCloseStep(step) {
      CloseStepFrame(s, step);
    } else {
      EndStepFrame(s, step);
    }
    hide DoViewer, DoOpen, DoCarry, DoClose, DoEnd, CanViewer, CanOpen, CanCarry, CanClose, CanEnd;
  }

  lemma ViewerStepKeepsClass(s: Session, step: Step)
    requires IsViewerStep(step) && CanViewer(s, step)
    ensures DoViewer(s, step).mem.closed == s.mem.closed && DoViewer(s, step).mem.endClass == s.mem.endClass
  {
  }

  // ----- An ended session winds down

  /** How far the worker is from its return; a replacement it is bound to make costs it one more round. */
  function Distance(w: Worker): nat {
    (match w.pc
     case PickLoad => 13 case Beginning(_) => 12 case Dialing => 11 case Sizing => 10
     case CheckLoad => 9 case Checking(_) => 8 case Reading => 7 case ReadOver => 6
     case Ending => 5 case Releasing => 4 case Closing => 3 case Leaving => 2
     case Finished => 1 case Retired => 0)
    + (if AnotherRound(w) then 13 else 0)
  }

  predicate AnotherRound(w: Worker) {
    || (w.again && (w.pc == Releasing || w.pc == Closing || w.pc == Leaving))
    || (w.pc == Checking(Operator) && w.purpose == Ambient)
  }

  predicate IsWorkStep(step: Step) { IsOpenStep(step) || IsCarryStep(step) || IsCloseStep(step) }

  lemma OpenComesCloser(s: Session, step: Step)
    requires WorkAgrees(s) && IsOpenStep(step) && CanOpen(s, step)
    ensures Distance(DoOpen(s, step).worker) < Distance(s.worker)
  {
    hide StreamAgrees, CancelsAgree, DialsAgree;
  }

  lemma CarryComesCloser(s: Session, step: Step)
    requires WorkAgrees(s) && s.contextOver && s.mem.operatorViewers == 0 && IsCarryStep(step) && CanCarry(s, step)
    ensures Distance(DoCarry(s, step).worker) < Distance(s.worker)
  {
    hide StreamAgrees, CancelsAgree;
  }

  lemma CloseComesCloser(s: Session, step: Step)
    requires WorkAgrees(s) && IsCloseStep(step) && CanClose(s, step)
    ensures Distance(DoClose(s, step).worker) < Distance(s.worker)
  {
    hide StreamAgrees, CancelsAgree, DialsAgree;
  }

  lemma EndKeepsContextOver(s: Session, step: Step)
    requires EndAgrees(s) && s.contextOver && IsEndStep(step) && CanEnd(s, step)
    ensures DoEnd(s, step).contextOver
  {
  }

  /** Once the session's context is cancelled, each step of the worker brings it closer to its return. */
  lemma WorkerComesCloser(s: Session, step: Step)
    requires Inv(s) && s.contextOver && Can(s, step)
    ensures if IsWorkStep(step) then Distance(Do(s, step).worker) < Distance(s.worker)
            else Do(s, step).worker == s.worker
    ensures Do(s, step).contextOver
  {
    hide DoViewer, DoOpen, DoCarry, DoClose, DoEnd, CanViewer, CanOpen, CanCarry, CanClose, CanEnd;
    hide Distance, ViewersAgree, WatchersAgree, TimerAgrees, UpgradePending, DialsAgree, CancelsAgree, StreamAgrees;
    NobodyLeft(s);
    if IsViewerStep(step) {
      ViewerStepFrame(s, step);
    } else if IsOpenStep(step) {
      OpenStepFrame(s, step);
      OpenComesCloser(s, step);
    } else if IsCarryStep(step) {
      CarryStepFrame(s, step);
      CarryComesCloser(s, step);
    } else if IsCloseStep(step) {
      CloseStepFrame(s, step);
      CloseComesCloser(s, step);
    } else {
      EndStepFrame(s, step);
      EndKeepsContextOver(s, step);
    }
  }

  function WorkSteps(steps: seq<Step>): nat {
    if steps == [] then 0 else (if IsWorkStep(steps[0]) then 1 else 0) + WorkSteps(steps[1..])
  }

  /** So a stop ends: whatever else happens, the worker takes at most 21 more steps of its own. */
  lemma {:induction false} EndedWorkerReturns(s: Session, steps: seq<Step>)
    requires Inv(s) && s.contextOver && Runs(s, steps)
    ensures WorkSteps(steps) <= Distance(s.worker) <= 21
    decreases |steps|
  {
    hide Inv, Can, Do;
    if steps != [] {
      StepKeeps(s, steps[0]);
      WorkerComesCloser(s, steps[0]);
      EndedWorkerReturns(Do(s, steps[0]), steps[1..]);
    }
  }

  // ----- Nobody waits for nobody

  /** Where the worker waits for the device: a dial, a frame size, a read, a close. */
  predicate AwaitsDevice(pc: Pc) { pc == Dialing || pc == Sizing || pc == Reading || pc == Closing }

  /** What the device answers there. */
  predicate IsAnswer(step: Step) {
    || step.DialFails? || step.DialOpens? || step.SizeFails? || step.PublishStream? || step.ReadFails? || step.CloseStream?
  }

  /** What an end does on its way, the closes of the viewers it evicts included. */
  predicate IsEnding(step: Step) { IsEndStep(step) || step.GiveBack? || step.Detach? }

  /** The worker's own next step: it has one exactly while it waits neither for the device nor for an end. */
  lemma WorkerGoes(s: Session)
    requires s.worker.pc != Retired && !(s.worker.pc == Ending && s.end != Over)
    ensures AwaitsDevice(s.worker.pc) <==> !exists step :: Can(s, step) && IsWorkStep(step) && !IsAnswer(step)
    ensures exists step :: Can(s, step) && IsWorkStep(step)
  {
    var step := match s.worker.pc
      case PickLoad => LoadToPick
      case Beginning(_) => BeginDial
      case Dialing => DialOpens
      case Sizing => PublishStream
      case CheckLoad => LoadToCheck
      case Checking(_) => Compare
      case Reading => ReadFails
      case ReadOver => LookAtContext
      case Ending => EndReturns
      case Releasing => Release
      case Closing => CloseStream(true)
      case Leaving => Leave
      case _ => Retire;
    assert Can(s, step) && IsWorkStep(step);
    assert AwaitsDevice(s.worker.pc) <==> IsAnswer(step);
  }

  lemma EndingWaits(s: Session, step: Step)
    requires s.worker.pc == Ending && s.end != Over && Can(s, step)
    ensures !IsWorkStep(step)
  {
  }

  lemma EvictionGoes(s: Session) returns (step: Step)
    requires WatchersAgree(s) && s.end.Evicting?
    ensures Can(s, step) && IsEnding(step) && !step.BeginEnd?
  {
    step := Evicted;
    if v :| v in s.end.watching && s.viewers[v].hold != Gone {
      step := if s.viewers[v].hold == Held then Step.GiveBack(v) else Step.Detach(v);
    }
  }

  lemma EndGoes(s: Session) returns (step: Step)
    requires WatchersAgree(s) && s.worker.pc == Ending && s.end != Over
    ensures Can(s, step) && IsEnding(step) && !(step.BeginEnd? && step.cause == ByStop)
  {
    hide WatchersAgree, CanViewer, CanOpen, CanCarry, CanClose;
    if s.end.Evicting? {
      step := EvictionGoes(s);
    } else {
      step := match s.end
        case Live => BeginEnd(ByWorker, DeviceStreamEnded)
        case CancelContext => ContextCancelled
        case Forgetting => Forgotten
        case _ => Accounted;
    }
  }

  /**
   Nobody waits for nobody: until it has returned, a worker has a step of its own unless it waits for the device, whose
   answer is then a step, or for an end that is not over, which then has a step.
   */
  lemma NeverStuck(opening: Purpose, steps: seq<Step>)
    requires Runs(NewSession(opening), steps)
    requires After(NewSession(opening), steps).worker.pc != Retired
    ensures var s := After(NewSession(opening), steps);
            if s.worker.pc == Ending && s.end != Over
            then (exists step :: Can(s, step) && IsEnding(step)) && forall step :: Can(s, step) ==> !IsWorkStep(step)
            else exists step :: Can(s, step) && IsWorkStep(step) && (IsAnswer(step) <==> AwaitsDevice(s.worker.pc))
  {
    RunFromNew(opening, steps);
    var s := After(NewSession(opening), steps);
    hide Runs, After, Can, IsWorkStep, IsAnswer, IsEnding, WorkAgrees, ViewersAgree, UpgradePending, WatchersAgree;
    if s.worker.pc == Ending && s.end != Over {
      var step := EndGoes(s);
      forall other | Can(s, other) ensures !IsWorkStep(other) {
        EndingWaits(s, other);
      }
    } else {
      WorkerGoes(s);
      if AwaitsDevice(s.worker.pc) {
        var step :| Can(s, step) && IsWorkStep(step);
        assert IsAnswer(step);
      } else {
        var step :| Can(s, step) && IsWorkStep(step) && !IsAnswer(step);
      }
    }
  }
}
