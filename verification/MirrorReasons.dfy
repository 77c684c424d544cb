/**
 Why one live session does what it does, over every run: what it dials for, when it gives a stream up, which dial a
 viewer is told to cancel, when its idle timer runs, and how it says it ended.
 */
module MirrorReasons {
  import opened Wrappers
  import opened MirrorMemory
  import opened MirrorRuns
  import opened MirrorSteps

  // ----- What a load answers

  /** An operator opened the session, or an operator's viewer holds a place in it. */
  predicate OperatorNeeded(s: Session) {
    s.mem.opening == Operator || exists v :: v in s.viewers && s.viewers[v].purpose == Operator && s.viewers[v].hold == Held
  }

  lemma CountedMeansHeld(s: Session)
    requires Inv(s)
    ensures s.mem.operatorViewers > 0 <==> exists v :: v in s.viewers && s.viewers[v].purpose == Operator && s.viewers[v].hold == Held
  {
    hide WorkAgrees, UpgradePending, WatchersAgree, TimerAgrees;
    if v :| v in s.viewers && s.viewers[v].purpose == Operator && s.viewers[v].hold == Held {
      assert v in Counted(s.viewers);
    } else {
      assert Counted(s.viewers) == {};
    }
  }

  /** The purpose picked for a dial is the operator's exactly when it is needed, and the grid's otherwise. */
  lemma PickIsExact(opening: Purpose, steps: seq<Step>)
    requires Runs(NewSession(opening), steps) && Can(After(NewSession(opening), steps), LoadToPick)
    ensures var s := After(NewSession(opening), steps);
            Do(s, LoadToPick).worker.pc == Beginning(if OperatorNeeded(s) then Operator else Ambient)
  {
    hide Runs, After, Inv;
    RunFromNew(opening, steps);
    var s := After(NewSession(opening), steps);
    CountedMeansHeld(s);
  }

  /** And so is the purpose a published stream is compared with. */
  lemma CheckIsExact(opening: Purpose, steps: seq<Step>)
    requires Runs(NewSession(opening), steps) && Can(After(NewSession(opening), steps), LoadToCheck)
    ensures var s := After(NewSession(opening), steps);
            Do(s, LoadToCheck).worker.pc == Checking(if OperatorNeeded(s) then Operator else Ambient)
  {
    hide Runs, After, Inv;
    RunFromNew(opening, steps);
    var s := After(NewSession(opening), steps);
    CountedMeansHeld(s);
  }

  /** What viewers and an end do between two steps of the worker. */
  predicate OthersOnly(steps: seq<Step>) { forall k :: 0 <= k < |steps| ==> !IsWorkStep(steps[k]) }

  lemma OtherStepFrame(s: Session, step: Step)
    requires Can(s, step) && !IsWorkStep(step)
    ensures Do(s, step).worker == s.worker && Do(s, step).dials == s.dials && Do(s, step).mem.dialed == s.mem.dialed
  {
    if IsViewerStep(step) {
      ViewerStepFrame(s, step);
    } else {
      EndStepFrame(s, step);
    }
    hide DoViewer, DoEnd, CanViewer, CanEnd;
  }

  lemma {:induction false} OthersFrame(s: Session, steps: seq<Step>)
    requires Runs(s, steps) && OthersOnly(steps)
    ensures var t := After(s, steps); t.worker == s.worker && t.dials == s.dials && t.mem.dialed == s.mem.dialed
    decreases |steps|
  {
    hide Can, Do, IsWorkStep;
    if steps != [] {
      OtherStepFrame(s, steps[0]);
      assert forall k :: 0 <= k < |steps| - 1 ==> steps[1..][k] == steps[k + 1];
      OthersFrame(Do(s, steps[0]), steps[1..]);
    }
  }

  /** What is dialed is what was picked: the operator's profile exactly if it was needed when the count was loaded. */
  lemma DialFollowsPick(opening: Purpose, before: seq<Step>, between: seq<Step>)
    requires Runs(NewSession(opening), before) && Can(After(NewSession(opening), before), LoadToPick)
    requires Runs(Do(After(NewSession(opening), before), LoadToPick), between) && OthersOnly(between)
    ensures var s := After(NewSession(opening), before);
            var t := After(Do(s, LoadToPick), between);
            && Can(t, BeginDial) && Do(t, BeginDial).worker.pc == Dialing
            && Do(t, BeginDial).dials == s.dials + [if OperatorNeeded(s) then Operator else Ambient]
            && Do(t, BeginDial).mem.dialed == Some(if OperatorNeeded(s) then Operator else Ambient)
  {
    hide Runs, After, OperatorNeeded;
    PickIsExact(opening, before);
    var s := After(NewSession(opening), before);
    OthersFrame(Do(s, LoadToPick), between);
  }

  /** A published stream is given up for another exactly when it is the grid's and the operator's was needed at the load. */
  lemma CompareFollowsLoad(opening: Purpose, before: seq<Step>, between: seq<Step>)
    requires Runs(NewSession(opening), before) && Can(After(NewSession(opening), before), LoadToCheck)
    requires Runs(Do(After(NewSession(opening), before), LoadToCheck), between) && OthersOnly(between)
    ensures var s := After(NewSession(opening), before);
            var t := After(Do(s, LoadToCheck), between);
            && Can(t, Compare)
            && (Do(t, Compare).worker.again <==> s.worker.purpose == Ambient && OperatorNeeded(s))
            && Do(t, Compare).worker.pc == if s.worker.purpose == Ambient && OperatorNeeded(s) then Releasing else Reading
  {
    hide Runs, After, OperatorNeeded, ViewersAgree, WatchersAgree, TimerAgrees, UpgradePending, CancelsAgree, StreamAgrees;
    RunFromNew(opening, before);
    CheckIsExact(opening, before);
    var s := After(NewSession(opening), before);
    var t := After(Do(s, LoadToCheck), between);
    OthersFrame(Do(s, LoadToCheck), between);
    assert s.mem.dialed == Some(s.worker.purpose) && !s.worker.again;
  }

  /** A read that is over is followed by another dial exactly when its own was cancelled and the session's end was not yet there. */
  lemma ReadEndMeans(opening: Purpose, steps: seq<Step>)
    requires Runs(NewSession(opening), steps) && Can(After(NewSession(opening), steps), LookAtContext)
    ensures var s := After(NewSession(opening), steps);
            var t := Do(s, LookAtContext);
            && (t.worker.again <==> s.worker.dial in s.cancelled && (s.end == Live || s.end.Evicting? || s.end == CancelContext))
            && t.worker.pc == if t.worker.again then Releasing else Ending
  {
    hide Runs, After, ViewersAgree, WatchersAgree, TimerAgrees, UpgradePending, CancelsAgree, StreamAgrees, DialsAgree;
    RunFromNew(opening, steps);
  }

  /** A viewer is told to cancel exactly the stream that is published, when that is the grid's and the viewer an operator's. */
  lemma CancelIsExact(opening: Purpose, steps: seq<Step>, purpose: Purpose)
    requires Runs(NewSession(opening), steps)
    ensures var s := After(NewSession(opening), steps);
            DialToCancel(s.mem, purpose) ==
            if purpose == Operator && s.mem.stream.Some? && s.worker.purpose == Ambient then s.mem.stream else None
  {
    hide Runs, After, ViewersAgree, WatchersAgree, TimerAgrees, UpgradePending, CancelsAgree, EndAgrees;
    RunFromNew(opening, steps);
  }

  // ----- What every step keeps

  /** Until it ends, a session nobody watches has its timer running, from the first detach that leaves it so until it fires. */
  ghost predicate IdleIsExact(s: Session) {
    && (forall v :: v in s.viewers ==> v > 0)
    && (s.end == Live ==>
      (s.mem.idleArmed <==> s.mem.viewers == map[] && s.mem.nextID > 0 && !(s.fired > 0 && s.firedAt == s.mem.nextID)))
  }

  /** Every dial's context is cancelled once its stream is given up. */
  ghost predicate DialsLetGo(s: Session) {
    && (forall d :: 0 <= d < |s.dials| - 1 ==> d in s.cancelled)
    && (s.dials != [] && (Picking(s.worker.pc) || IsOver(s.worker.pc)) ==> LastDial(s) in s.cancelled)
  }

  /** Without an operator's viewer nothing is dialed but what the session was opened for, and that once. */
  ghost predicate OpeningOnly(s: Session) {
    s.operators == 0 ==>
      && (s.dials == [] || s.dials == [s.mem.opening])
      && !s.worker.again && (s.dials != [] ==> !Picking(s.worker.pc))
      && (s.worker.pc.Beginning? ==> s.worker.pc.chosen == s.mem.opening)
      && (s.worker.pc.Checking? ==> s.worker.pc.required == s.mem.opening)
      && (forall d :: d in s.cancelled ==> IsOver(s.worker.pc))
  }

  /** A class is recorded with an end. */
  ghost predicate ClassWithEnd(s: Session) { s.mem.endClass.Some? <==> s.end != Live }

  ghost predicate Reasons(s: Session) { IdleIsExact(s) && DialsLetGo(s) && OpeningOnly(s) && ClassWithEnd(s) }

  lemma ViewerStepKeepsIdle(s: Session, step: Step)
    requires Inv(s) && IdleIsExact(s) && IsViewerStep(step) && CanViewer(s, step)
    ensures IdleIsExact(DoViewer(s, step))
  {
    hide WorkAgrees, UpgradePending, Counted, DialToCancel;
    if step.Attach? {
      assert s.mem.nextID + 1 in DoViewer(s, step).mem.viewers;
    } else if step.Detach? && s.end == Live {
      assert step.viewer in s.mem.viewers && 0 < step.viewer <= s.mem.nextID;
    }
  }

  lemma ViewerStepKeepsReasons(s: Session, step: Step)
    requires Inv(s) && Reasons(s) && IsViewerStep(step) && CanViewer(s, step)
    ensures Reasons(DoViewer(s, step))
  {
    hide IdleIsExact, UpgradePending, TimerAgrees, WatchersAgree, DialsAgree, StreamAgrees, EndAgrees, Counted, DialToCancel;
    ViewerStepKeepsIdle(s, step);
    ViewerStepKeepsClass(s, step);
    ViewerStepFrame(s, step);
  }

  lemma OpenStepKeepsReasons(s: Session, step: Step)
    requires Inv(s) && Reasons(s) && IsOpenStep(step) && CanOpen(s, step)
    ensures Reasons(DoOpen(s, step))
  {
    hide UpgradePending, TimerAgrees, WatchersAgree, StreamAgrees, CancelsAgree, EndAgrees;
    OpenStepFrame(s, step);
    NobodyCounts(s);
    hide ViewersAgree;
  }

  lemma CarryStepKeepsReasons(s: Session, step: Step)
    requires Inv(s) && Reasons(s) && IsCarryStep(step) && CanCarry(s, step)
    ensures Reasons(DoCarry(s, step))
  {
    hide UpgradePending, TimerAgrees, WatchersAgree, StreamAgrees, CancelsAgree;
    CarryStepFrame(s, step);
    NobodyCounts(s);
    hide ViewersAgree;
  }

  lemma CloseStepKeepsReasons(s: Session, step: Step)
    requires Inv(s) && Reasons(s) && IsCloseStep(step) && CanClose(s, step)
    ensures Reasons(DoClose(s, step))
  {
    hide UpgradePending, TimerAgrees, WatchersAgree, StreamAgrees, CancelsAgree, ViewersAgree;
    CloseStepFrame(s, step);
  }

  lemma EndStepKeepsReasons(s: Session, step: Step)
    requires Inv(s) && Reasons(s) && IsEndStep(step) && CanEnd(s, step)
    ensures Reasons(DoEnd(s, step))
  {
    hide UpgradePending, TimerAgrees, WatchersAgree, WorkAgrees, ViewersAgree;
    EndStepFrame(s, step);
  }

  lemma NobodyCounts(s: Session)
    requires Inv(s)
    ensures s.operators == 0 ==> s.mem.operatorViewers == 0
  {
    if s.operators == 0 {
      assert Counted(s.viewers) == {};
    }
  }

  lemma StepKeepsReasons(s: Session, step: Step)
    requires Inv(s) && Reasons(s) && Can(s, step)
    ensures Reasons(Do(s, step))
  {
    hide DoViewer, DoOpen, DoCarry, DoClose, DoEnd, CanViewer, CanOpen, CanCarry, CanClose, CanEnd, Inv, Reasons;
    if IsViewerStep(step) {
      ViewerStepKeepsReasons(s, step);
    } else if IsOpenStep(step) {
      OpenStepKeepsReasons(s, step);
    } else if IsCarryStep(step) {
      CarryStepKeepsReasons(s, step);
    } else if IsCloseStep(step) {
      CloseStepKeepsReasons(s, step);
    } else {
      EndStepKeepsReasons(s, step);
    }
  }

  lemma {:induction false} RunKeepsReasons(s: Session, steps: seq<Step>)
    requires Inv(s) && Reasons(s) && Runs(s, steps)
    ensures Reasons(After(s, steps))
    decreases |steps|
  {
    hide Inv, Reasons, Can, Do;
    if steps != [] {
      StepKeeps(s, steps[0]);
      StepKeepsReasons(s, steps[0]);
      RunKeepsReasons(Do(s, steps[0]), steps[1..]);
    }
  }

  lemma ReasonsFromNew(opening: Purpose, steps: seq<Step>)
    requires Runs(NewSession(opening), steps)
    ensures Inv(After(NewSession(opening), steps)) && Reasons(After(NewSession(opening), steps))
  {
    NewSessionKeeps(opening);
    assert Reasons(NewSession(opening));
    hide Inv, Reasons;
    RunKeepsReasons(NewSession(opening), steps);
    RunFromNew(opening, steps);
  }

  // ----- Over every run

  /**
   A live session's idle timer is armed exactly when nobody watches it, somebody has, and the timer has not fired since
   the last of them attached: no unwatched session is left without an end to come.
   */
  lemma IdleTimerIsExact(opening: Purpose, steps: seq<Step>)
    requires Runs(NewSession(opening), steps) && After(NewSession(opening), steps).end == Live
    ensures var s := After(NewSession(opening), steps);
            Can(s, TimerFires) <==> s.mem.viewers == map[] && s.mem.nextID > 0 && !(s.fired > 0 && s.firedAt == s.mem.nextID)
  {
    hide Runs, After, Inv;
    ReasonsFromNew(opening, steps);
  }

  /** The grid's own session is dialed for the grid: while no operator's viewer attaches, once and as it was opened. */
  lemma DialsAsOpened(opening: Purpose, steps: seq<Step>)
    requires Runs(NewSession(opening), steps) && After(NewSession(opening), steps).operators == 0
    ensures var dials := After(NewSession(opening), steps).dials; dials == [] || dials == [opening]
  {
    hide Runs, After, Inv;
    ReasonsFromNew(opening, steps);
    OpeningStays(NewSession(opening), steps);
  }

  /** Every dial but the one in use has had its context cancelled, and that one too once the worker has let go of it. */
  lemma DialsAreLetGo(opening: Purpose, steps: seq<Step>)
    requires Runs(NewSession(opening), steps)
    ensures var s := After(NewSession(opening), steps);
            && (forall d :: 0 <= d < |s.dials| - 1 ==> d in s.cancelled)
            && (IsOver(s.worker.pc) ==> forall d :: 0 <= d < |s.dials| ==> d in s.cancelled)
  {
    hide Runs, After, Inv, IdleIsExact, OpeningOnly;
    ReasonsFromNew(opening, steps);
  }

  /** The class a session ended with is that of the end that began, and it has one exactly once an end has begun. */
  lemma {:induction false} ClassIsTheEnds(opening: Purpose, steps: seq<Step>, k: nat)
    requires Runs(NewSession(opening), steps)
    ensures After(NewSession(opening), steps).mem.endClass.Some? <==> exists j :: 0 <= j < |steps| && steps[j].BeginEnd?
    ensures k < |steps| && steps[k].BeginEnd? ==>
              var class' := After(NewSession(opening), steps).mem.endClass;
              && class' == Some(steps[k].class')
              && (steps[k].cause == ByIdle ==> class' == Some(ViewerDetached))
              && (steps[k].cause == ByStop ==> class' == Some(EngineStopped))
    decreases |steps|
  {
    hide Runs, After, Can, Do, Inv, Reasons;
    if steps == [] {
      EmptyRun(NewSession(opening));
    } else {
      var front, last := steps[..|steps| - 1], steps[|steps| - 1];
      assert steps == front + [last];
      RunSplits(NewSession(opening), front, last);
      ClassIsTheEnds(opening, front, k);
      ReasonsFromNew(opening, front);
      ClassStep(After(NewSession(opening), front), last);
      BeginsMore(front, last);
    }
  }

  lemma EmptyRun(s: Session)
    ensures Runs(s, []) && After(s, []) == s
  {
  }

  lemma BeginsMore(front: seq<Step>, last: Step)
    ensures (exists j :: 0 <= j < |front + [last]| && (front + [last])[j].BeginEnd?) <==>
            (exists j :: 0 <= j < |front| && front[j].BeginEnd?) || last.BeginEnd?
  {
    var steps := front + [last];
    assert forall j :: 0 <= j < |front| ==> steps[j] == front[j];
    assert steps[|front|] == last;
  }

  lemma {:induction false} RunSplits(s: Session, front: seq<Step>, last: Step)
    requires Runs(s, front + [last])
    ensures Runs(s, front) && Can(After(s, front), last) && After(s, front + [last]) == Do(After(s, front), last)
    decreases |front|
  {
    hide Can, Do;
    if front == [] {
      assert (front + [last])[1..] == [];
    } else {
      assert (front + [last])[1..] == front[1..] + [last];
      RunSplits(Do(s, front[0]), front[1..], last);
    }
  }

  lemma ClassStep(s: Session, step: Step)
    requires Reasons(s) && Can(s, step)
    ensures if step.BeginEnd? then
              && s.mem.endClass == None && Do(s, step).mem.endClass == Some(step.class')
              && (step.cause == ByIdle ==> step.class' == ViewerDetached) && (step.cause == ByStop ==> step.class' == EngineStopped)
            else Do(s, step).mem.endClass == s.mem.endClass
  {
    hide IdleIsExact, DialsLetGo, OpeningOnly;
    if IsViewerStep(step) {
      ViewerStepKeepsClass(s, step);
    } else if IsOpenStep(step) {
      OpenStepFrame(s, step);
    } else if IsCarryStep(step) {
      CarryStepFrame(s, step);
    } else if IsCloseStep(step) {
      CloseStepFrame(s, step);
    } else {
      EndStepFrame(s, step);
    }
    hide DoViewer, DoOpen, DoCarry, DoClose, CanViewer, CanOpen, CanCarry, CanClose;
  }
}
