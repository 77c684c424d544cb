/**
 The concurrent life of one live session, as interleaved atomic steps: viewers attach and close, the worker dials,
 publishes, reads, releases and dials again, and somebody ends the session. Each critical section is one step, and
 each load of the operator count is a step of its own; reading the opening purpose, which never changes, is not.
 */
module MirrorSteps {
  import opened Wrappers
  import opened MirrorMemory

  /** Where one viewer's attach call is: before the profile request's lock, about to cancel a dial, or returned. */
  datatype Phase = Asking | Cancelling(dial: nat) | Settled

  /** Where one viewer's close is: still counted, no longer counted, or detached. */
  datatype Hold = Held | GaveBack | Gone

  datatype Viewer = Viewer(purpose: Purpose, phase: Phase, hold: Hold)

  /** What the worker does next. */
  datatype Pc =
    | PickLoad | Beginning(chosen: Purpose)
    | Dialing | Sizing
    | CheckLoad | Checking(required: Purpose)
    | Reading | ReadOver
    | Ending | Releasing | Closing | Leaving
    | Finished | Retired

  /** The worker's locals: its dial, that dial's purpose, whether it opened a stream, whether to dial again. */
  datatype Worker = Worker(pc: Pc, dial: nat, purpose: Purpose, hasStream: bool, again: bool)

  /** The stages of the one end a session has. */
  datatype End = Live | Evicting(watching: set<nat>) | CancelContext | Forgetting | Accounting | Over

  datatype Session = Session(
    mem: Memory,
    viewers: map<nat, Viewer>,
    worker: Worker,
    cancelled: set<nat>,
    contextOver: bool,
    end: End,
    fired: nat,
    // History: the newest viewer's number when the idle timer last fired.
    firedAt: nat,
    // The purposes dialed for, the streams open now, how streams were released, operators attached.
    dials: seq<Purpose>,
    open: set<nat>,
    streams: nat, released: nat, unreleased: nat,
    operators: nat)

  function NewSession(opening: Purpose): Session {
    Session(NewMemory(opening), map[], Worker(PickLoad, 0, Ambient, false, false), {}, false, Live, 0, 0, [], {}, 0, 0, 0, 0)
  }

  datatype Cause = ByIdle | ByStop | ByWorker

  datatype Step =
    // viewers
    | Attach(purpose: Purpose) | AskProfile(viewer: nat) | CancelDial(viewer: nat)
    | GiveBack(viewer: nat) | Detach(viewer: nat) | TimerFires
    // the worker
    | LoadToPick | BeginDial | DialFails | DialOpens | SizeFails | PublishStream
    | LoadToCheck | Compare | ReadFails | LookAtContext | EndReturns
    | Release | CloseStream(ok: bool) | Leave | Retire
    // the end
    | BeginEnd(cause: Cause, class': EndClass) | Evicted | ContextCancelled | Forgotten | Accounted

  predicate IsViewerStep(step: Step) {
    step.Attach? || step.AskProfile? || step.CancelDial? || step.GiveBack? || step.Detach? || step.TimerFires?
  }

  predicate IsEndStep(step: Step) {
    step.BeginEnd? || step.Evicted? || step.ContextCancelled? || step.Forgotten? || step.Accounted?
  }

  predicate CanViewer(s: Session, step: Step)
    requires IsViewerStep(step)
  {
    match step
    case Attach(_) => !s.mem.closed
    case AskProfile(v) => v in s.viewers && s.viewers[v].phase == Asking
    case CancelDial(v) => v in s.viewers && s.viewers[v].phase.Cancelling?
    // A caller closes a viewer it was given; the end closes whoever was watching.
    case GiveBack(v) =>
      && v in s.viewers && s.viewers[v].hold == Held
      && (s.viewers[v].phase == Settled || (s.end.Evicting? && v in s.end.watching))
    case Detach(v) => v in s.viewers && s.viewers[v].hold == GaveBack
    case TimerFires => s.mem.idleArmed
  }

  function DoViewer(s: Session, step: Step): Session
    requires IsViewerStep(step) && CanViewer(s, step)
  {
    match step
    case Attach(purpose) =>
      s.(mem := Attached(s.mem, purpose),
         viewers := s.viewers[s.mem.nextID + 1 := Viewer(purpose, Asking, Held)],
         operators := s.operators + Weight(purpose))
    case AskProfile(v) =>
      var cancel := DialToCancel(s.mem, s.viewers[v].purpose);
      s.(viewers := s.viewers[v := s.viewers[v].(phase := if cancel.None? then Settled else Cancelling(cancel.value))])
    case CancelDial(v) =>
      s.(cancelled := s.cancelled + {s.viewers[v].phase.dial}, viewers := s.viewers[v := s.viewers[v].(phase := Settled)])
    case GiveBack(v) =>
      s.(mem := GivenBack(s.mem, s.viewers[v].purpose), viewers := s.viewers[v := s.viewers[v].(hold := GaveBack)])
    case Detach(v) =>
      s.(mem := Detached(s.mem, v), viewers := s.viewers[v := s.viewers[v].(hold := Gone)])
    case TimerFires =>
      s.(mem := s.mem.(idleArmed := false), fired := s.fired + 1, firedAt := s.mem.nextID)
  }

  /** The dial's context is over when it was cancelled, or the session's own context is. */
  predicate DialContextOver(s: Session) { s.worker.dial in s.cancelled || s.contextOver }

  function At(s: Session, pc: Pc): Session { s.(worker := s.worker.(pc := pc)) }

  /** Opening the device: choosing a purpose, dialing, asking for the frame size. */
  predicate IsOpenStep(step: Step) {
    step.LoadToPick? || step.BeginDial? || step.DialFails? || step.DialOpens? || step.SizeFails?
  }

  predicate CanOpen(s: Session, step: Step)
    requires IsOpenStep(step)
  {
    match step
    case LoadToPick => s.worker.pc == PickLoad
    case BeginDial => s.worker.pc.Beginning?
    case DialFails => s.worker.pc == Dialing
    case DialOpens => s.worker.pc == Dialing
    case SizeFails => s.worker.pc == Sizing
  }

  function DoOpen(s: Session, step: Step): Session
    requires IsOpenStep(step) && CanOpen(s, step)
  {
    match step
    case LoadToPick => At(s, Beginning(Required(s.mem, s.mem.operatorViewers)))
    case BeginDial =>
      var purpose := s.worker.pc.chosen;
      s.(mem := DialBegun(s.mem, purpose, |s.dials|), dials := s.dials + [purpose],
         worker := Worker(Dialing, |s.dials|, purpose, false, false))
    case DialFails => At(s, Ending)
    case DialOpens =>
      s.(worker := s.worker.(pc := Sizing, hasStream := true), open := s.open + {s.worker.dial}, streams := s.streams + 1)
    case SizeFails => At(s, Ending)
  }

  /** Carrying the stream: publishing it, asking whether it is strong enough, reading it until the read ends. */
  predicate IsCarryStep(step: Step) {
    step.PublishStream? || step.LoadToCheck? || step.Compare? || step.ReadFails? || step.LookAtContext?
  }

  predicate CanCarry(s: Session, step: Step)
    requires IsCarryStep(step)
  {
    match step
    case PublishStream => s.worker.pc == Sizing
    case LoadToCheck => s.worker.pc == CheckLoad
    case Compare => s.worker.pc.Checking?
    case ReadFails => s.worker.pc == Reading
    case LookAtContext => s.worker.pc == ReadOver
  }

  function DoCarry(s: Session, step: Step): Session
    requires IsCarryStep(step) && CanCarry(s, step)
  {
    match step
    case PublishStream => At(s, CheckLoad).(mem := Published(s.mem, s.worker.dial, s.worker.purpose))
    case LoadToCheck => At(s, Checking(Required(s.mem, s.mem.operatorViewers)))
    case Compare =>
      if Rank(Some(s.worker.pc.required)) > Rank(s.mem.dialed) then s.(worker := s.worker.(pc := Releasing, again := true))
      else At(s, Reading)
    case ReadFails => At(s, ReadOver)
    case LookAtContext =>
      if DialContextOver(s) && !s.contextOver then s.(worker := s.worker.(pc := Releasing, again := true))
      else At(s, Ending)
  }

  /** Letting go: the worker's end has returned, the stream is released and closed, the dial's context is cancelled. */
  predicate IsCloseStep(step: Step) {
    step.EndReturns? || step.Release? || step.CloseStream? || step.Leave? || step.Retire?
  }

  predicate CanClose(s: Session, step: Step)
    requires IsCloseStep(step)
  {
    match step
    case EndReturns => s.worker.pc == Ending && s.end == Over
    case Release => s.worker.pc == Releasing
    case CloseStream(_) => s.worker.pc == Closing
    case Leave => s.worker.pc == Leaving
    case Retire => s.worker.pc == Finished
  }

  function DoClose(s: Session, step: Step): Session
    requires IsCloseStep(step) && CanClose(s, step)
  {
    match step
    case EndReturns => At(s, if s.worker.hasStream then Releasing else Leaving)
    case Release => At(s, Closing).(mem := Unpublished(s.mem, s.worker.dial))
    case CloseStream(ok) =>
      var left := At(s, Leaving).(open := s.open - {s.worker.dial});
      if ok then left.(released := s.released + 1) else left.(unreleased := s.unreleased + 1)
    case Leave => At(s, if s.worker.again then PickLoad else Finished).(cancelled := s.cancelled + {s.worker.dial})
    case Retire => At(s, Retired)
  }

  predicate CanEnd(s: Session, step: Step)
    requires IsEndStep(step)
  {
    match step
    case BeginEnd(cause, class') =>
      && s.end == Live
      && (cause == ByIdle ==> s.fired > 0 && class' == ViewerDetached)
      && (cause == ByStop ==> class' == EngineStopped)
      && (cause == ByWorker ==> s.worker.pc == Ending)
    case Evicted => s.end.Evicting? && forall v :: v in s.end.watching && v in s.viewers ==> s.viewers[v].hold == Gone
    case ContextCancelled => s.end == CancelContext
    case Forgotten => s.end == Forgetting
    case Accounted => s.end == Accounting
  }

  function DoEnd(s: Session, step: Step): Session
    requires IsEndStep(step) && CanEnd(s, step)
  {
    match step
    case BeginEnd(_, class') => s.(mem := Ended(s.mem, class'), end := Evicting(s.mem.viewers.Keys))
    case Evicted => s.(end := CancelContext)
    case ContextCancelled => s.(end := Forgetting, contextOver := true)
    case Forgotten => s.(end := Accounting)
    case Accounted => s.(end := Over)
  }

  predicate Can(s: Session, step: Step) {
    if IsViewerStep(step) then CanViewer(s, step)
    else if IsOpenStep(step) then CanOpen(s, step)
    else if IsCarryStep(step) then CanCarry(s, step)
    else if IsCloseStep(step) then CanClose(s, step)
    else CanEnd(s, step)
  }

  function Do(s: Session, step: Step): Session
    requires Can(s, step)
  {
    if IsViewerStep(step) then DoViewer(s, step)
    else if IsOpenStep(step) then DoOpen(s, step)
    else if IsCarryStep(step) then DoCarry(s, step)
    else if IsCloseStep(step) then DoClose(s, step)
    else DoEnd(s, step)
  }

  // ----- What every step keeps

  /** The operator viewers that are counted: attached and not yet given back. */
  function Counted(viewers: map<nat, Viewer>): set<nat> {
    set v | v in viewers && viewers[v].purpose == Operator && viewers[v].hold == Held
  }

  predicate Picking(pc: Pc) { pc == PickLoad || pc.Beginning? }
  predicate IsOver(pc: Pc) { pc == Finished || pc == Retired }

  /** From the publication of a stream to the end of its read. */
  predicate Carrying(pc: Pc) {
    pc == CheckLoad || pc.Checking? || pc == Reading || pc == ReadOver
  }

  function LastDial(s: Session): nat
    requires s.dials != []
  {
    |s.dials| - 1
  }

  /** The count counts; viewers have distinct numbers; a live session's closed viewers have returned. */
  ghost predicate ViewersAgree(s: Session) {
    && s.mem.operatorViewers == |Counted(s.viewers)|
    && s.mem.viewers.Keys <= s.viewers.Keys
    && (forall v :: v in s.viewers ==> v <= s.mem.nextID)
    && (s.mem.closed <==> s.end != Live)
    && (s.mem.closed ==> s.mem.viewers == map[])
    && (s.operators == 0 ==> forall v :: v in s.viewers ==> s.viewers[v].purpose == Ambient)
  }

  /** Whoever holds a place is recorded while the session lives, named by the end that evicts, and gone after it. */
  ghost predicate WatchersAgree(s: Session) {
    && (forall v :: v in s.mem.viewers ==> v in s.viewers && s.viewers[v].hold != Gone)
    && (s.end.Evicting? ==> s.end.watching <= s.viewers.Keys)
    && (s.mem.idleArmed ==> s.mem.viewers == map[] && !s.mem.closed)
    && (s.end == Live ==> forall v :: v in s.viewers && s.viewers[v].hold != Gone ==> v in s.mem.viewers)
    && (forall v :: v in s.viewers && s.viewers[v].hold == Held && s.end != Live ==>
          s.end.Evicting? && v in s.end.watching)
  }

  /** Whoever is recorded attached after the idle timer last fired. */
  ghost predicate TimerAgrees(s: Session) {
    s.fired > 0 ==> s.firedAt <= s.mem.nextID && forall v :: v in s.mem.viewers ==> v > s.firedAt
  }

  /** Every dial but the last was an ambient one, and so was the last while the worker is choosing the next. */
  ghost predicate DialsAgree(s: Session) {
    && (forall k :: 0 <= k < |s.dials| - 1 ==> s.dials[k] == Ambient)
    && s.mem.dialed == (if s.dials == [] then None else Some(s.dials[LastDial(s)]))
    && s.mem.dialCancel == (if s.dials == [] then None else Some(LastDial(s)))
    && (s.mem.opening == Operator && s.dials != [] ==> s.dials == [Operator])
    && (s.worker.pc.Beginning? && s.worker.pc.chosen == Ambient ==> s.mem.opening == Ambient)
    && (s.dials == [] ==> Picking(s.worker.pc))
    && (Picking(s.worker.pc) && s.dials != [] ==> s.dials[LastDial(s)] == Ambient)
    && (!Picking(s.worker.pc) ==> s.worker.dial == LastDial(s) && s.worker.purpose == s.dials[LastDial(s)])
    && (s.worker.again && !Picking(s.worker.pc) ==> s.worker.purpose == Ambient)
  }

  /** Only ambient dials are ever cancelled while they are carried. */
  ghost predicate CancelsAgree(s: Session) {
    && (forall v :: v in s.viewers && s.viewers[v].phase.Cancelling? ==>
          && s.viewers[v].phase.dial < |s.dials| && s.dials[s.viewers[v].phase.dial] == Ambient
          && s.viewers[v].purpose == Operator)
    && (forall d :: d in s.cancelled ==> d < |s.dials| && (s.dials[d] == Ambient || IsOver(s.worker.pc)))
  }

  /** At most the worker's own stream is open, and it is open exactly while the worker holds it. */
  ghost predicate StreamAgrees(s: Session) {
    var pc := s.worker.pc;
    && (Carrying(pc) ==> s.mem.stream == Some(s.worker.dial))
    && ((pc == Ending || pc == Releasing) && s.mem.stream.Some? ==> s.mem.stream.value == s.worker.dial)
    && (!Carrying(pc) && pc != Ending && pc != Releasing ==> s.mem.stream == None)
    && s.open == (if HoldsStream(s.worker) then {s.worker.dial} else {})
    && (pc == Ending && !s.worker.hasStream ==> s.mem.stream == None)
    && s.streams == s.released + s.unreleased + |s.open|
  }

  predicate HoldsStream(w: Worker) {
    w.pc == Sizing || Carrying(w.pc) || w.pc == Releasing || w.pc == Closing || (w.pc == Ending && w.hasStream)
  }

  ghost predicate EndAgrees(s: Session) {
    && (s.contextOver <==> s.end == Forgetting || s.end == Accounting || s.end == Over)
    && (IsOver(s.worker.pc) || (s.worker.pc == Leaving && !s.worker.again) ==> s.end == Over)
    && ((s.worker.pc == Releasing || s.worker.pc == Closing) && !s.worker.again ==> s.end == Over)
    && (Carrying(s.worker.pc) || s.worker.pc == Dialing || s.worker.pc == Sizing || s.worker.pc == Ending
        ==> !s.worker.again)
    && (HoldsStream(s.worker) && s.worker.pc != Ending ==> s.worker.hasStream)
    && (s.worker.pc == Dialing ==> !s.worker.hasStream)
  }

  /**
   No upgrade is lost: once the worker's load has returned zero, every counted operator viewer is on its way to
   cancelling the very dial that is being carried, or has.
   */
  ghost predicate UpgradePending(s: Session) {
    var w := s.worker;
    && w.purpose == Ambient
    && (w.pc == Checking(Ambient) || w.pc == Reading || w.pc == ReadOver)
    && w.dial !in s.cancelled
    ==> forall v :: v in Counted(s.viewers) ==> s.viewers[v].phase == Asking || s.viewers[v].phase == Cancelling(w.dial)
  }

  ghost predicate WorkAgrees(s: Session) {
    DialsAgree(s) && CancelsAgree(s) && StreamAgrees(s) && EndAgrees(s)
  }

  ghost predicate Inv(s: Session) {
    ViewersAgree(s) && WatchersAgree(s) && TimerAgrees(s) && WorkAgrees(s) && UpgradePending(s)
  }

  lemma NewSessionKeeps(opening: Purpose)
    ensures Inv(NewSession(opening))
  {
  }

  lemma CountOne(before: map<nat, Viewer>, v: nat, now: Viewer)
    ensures Counted(before[v := now]) ==
            if now.purpose == Operator && now.hold == Held then Counted(before) + {v} else Counted(before) - {v}
  {
  }

  /** What one viewer's record becomes in a step. */
  lemma CountAfter(s: Session, step: Step)
    requires IsViewerStep(step) && CanViewer(s, step)
    ensures var before, after := Counted(s.viewers), Counted(DoViewer(s, step).viewers);
            match step
            case Attach(p) => after == if p == Operator then before + {s.mem.nextID + 1} else before - {s.mem.nextID + 1}
            case GiveBack(v) => after == before - {v}
            case _ => after == before
  {
    match step
    case Attach(purpose) => CountOne(s.viewers, s.mem.nextID + 1, Viewer(purpose, Asking, Held));
    case AskProfile(v) =>
      var cancel := DialToCancel(s.mem, s.viewers[v].purpose);
      CountOne(s.viewers, v, s.viewers[v].(phase := if cancel.None? then Settled else Cancelling(cancel.value)));
    case CancelDial(v) => CountOne(s.viewers, v, s.viewers[v].(phase := Settled));
    case GiveBack(v) => CountOne(s.viewers, v, s.viewers[v].(hold := GaveBack));
    case Detach(v) => CountOne(s.viewers, v, s.viewers[v].(hold := Gone));
    case TimerFires =>
  }

  lemma ViewerStepKeepsCount(s: Session, step: Step)
    requires ViewersAgree(s) && IsViewerStep(step) && CanViewer(s, step)
    ensures DoViewer(s, step).mem.operatorViewers == |Counted(DoViewer(s, step).viewers)|
  {
    CountAfter(s, step);
    var before := Counted(s.viewers);
    match step
    case Attach(purpose) => assert s.mem.nextID + 1 !in before;
    case GiveBack(v) => assert s.viewers[v].purpose == Operator <==> v in before;
    case _ =>
  }

  lemma ViewerStepKeepsViewers(s: Session, step: Step)
    requires ViewersAgree(s) && IsViewerStep(step) && CanViewer(s, step)
    ensures ViewersAgree(DoViewer(s, step))
  {
    ViewerStepKeepsCount(s, step);
    hide Counted, DialToCancel;
  }

  lemma ViewerStepKeepsUpgrade(s: Session, step: Step)
    requires Inv(s) && IsViewerStep(step) && CanViewer(s, step)
    ensures UpgradePending(DoViewer(s, step))
  {
    hide ViewersAgree, TimerAgrees, CancelsAgree, StreamAgrees, EndAgrees;
    CountAfter(s, step);
    if s.worker.purpose == Ambient {
      UpgradeCarried(s);
    }
    hide DialsAgree, DialToCancel;
  }

  /** While the worker carries an ambient stream, an operator viewer that asks is told to cancel that very dial. */
  lemma UpgradeCarried(s: Session)
    requires WorkAgrees(s) && s.worker.purpose == Ambient
    ensures s.worker.pc == Checking(Ambient) || s.worker.pc == Reading || s.worker.pc == ReadOver ==>
              DialToCancel(s.mem, Operator) == Some(s.worker.dial)
  {
  }

  /** What a viewer is told to cancel is an ambient dial, and only an operator viewer is told. */
  lemma OnlyAmbientIsCancelled(s: Session, purpose: Purpose)
    requires WorkAgrees(s)
    ensures var cancel := DialToCancel(s.mem, purpose);
            cancel.Some? ==> cancel.value < |s.dials| && s.dials[cancel.value] == Ambient && purpose == Operator
  {
  }

  lemma ViewerStepKeepsCancels(s: Session, step: Step)
    requires WorkAgrees(s) && IsViewerStep(step) && CanViewer(s, step)
    ensures CancelsAgree(DoViewer(s, step))
  {
    if step.AskProfile? {
      OnlyAmbientIsCancelled(s, s.viewers[step.viewer].purpose);
    }
    hide DialToCancel, DialsAgree, StreamAgrees, EndAgrees;
  }

  lemma ViewerStepFrame(s: Session, step: Step)
    requires IsViewerStep(step) && CanViewer(s, step)
    ensures var t := DoViewer(s, step);
            && t.worker == s.worker && t.dials == s.dials && t.open == s.open && t.end == s.end && t.contextOver == s.contextOver
            && t.streams == s.streams && t.released == s.released && t.unreleased == s.unreleased
            && t.mem.dialed == s.mem.dialed && t.mem.dialCancel == s.mem.dialCancel && t.mem.stream == s.mem.stream
            && t.mem.opening == s.mem.opening
  {
  }

  lemma ViewerStepKeepsWork(s: Session, step: Step)
    requires WorkAgrees(s) && IsViewerStep(step) && CanViewer(s, step)
    ensures WorkAgrees(DoViewer(s, step))
  {
    ViewerStepKeepsCancels(s, step);
    ViewerStepFrame(s, step);
    hide DoViewer, CanViewer, CancelsAgree;
  }

  lemma ViewerStepKeepsWatchers(s: Session, step: Step)
    requires ViewersAgree(s) && WatchersAgree(s) && IsViewerStep(step) && CanViewer(s, step)
    ensures WatchersAgree(DoViewer(s, step))
  {
    hide Counted, DialToCancel;
  }

  lemma ViewerStepKeepsTimer(s: Session, step: Step)
    requires WatchersAgree(s) && TimerAgrees(s) && IsViewerStep(step) && CanViewer(s, step)
    ensures TimerAgrees(DoViewer(s, step))
  {
    hide DialToCancel;
  }

  lemma ViewerStepKeeps(s: Session, step: Step)
    requires Inv(s) && IsViewerStep(step) && CanViewer(s, step)
    ensures Inv(DoViewer(s, step))
  {
    ViewerStepKeepsViewers(s, step);
    ViewerStepKeepsUpgrade(s, step);
    ViewerStepKeepsWatchers(s, step);
    ViewerStepKeepsTimer(s, step);
    ViewerStepKeepsWork(s, step);
    hide DoViewer, CanViewer, ViewersAgree, WatchersAgree, TimerAgrees, UpgradePending, WorkAgrees;
  }

  lemma EndStepFrame(s: Session, step: Step)
    requires IsEndStep(step) && CanEnd(s, step)
    ensures var t := DoEnd(s, step);
            && t.worker == s.worker && t.dials == s.dials && t.open == s.open && t.viewers == s.viewers
            && t.cancelled == s.cancelled && t.operators == s.operators
            && t.streams == s.streams && t.released == s.released && t.unreleased == s.unreleased
            && t.fired == s.fired && t.firedAt == s.firedAt
            && (t.mem == s.mem || (s.end == Live && step.BeginEnd? && t.mem == Ended(s.mem, step.class')))
  {
  }

  lemma EndStepKeepsWork(s: Session, step: Step)
    requires WorkAgrees(s) && IsEndStep(step) && CanEnd(s, step)
    ensures WorkAgrees(DoEnd(s, step))
  {
    EndStepFrame(s, step);
    assert EndAgrees(DoEnd(s, step));
    hide DoEnd, CanEnd, EndAgrees;
  }

  lemma EndStepKeeps(s: Session, step: Step)
    requires Inv(s) && IsEndStep(step) && CanEnd(s, step)
    ensures Inv(DoEnd(s, step))
  {
    EndStepKeepsWork(s, step);
    EndStepFrame(s, step);
    hide WorkAgrees, Counted;
  }

  // ----- The worker's steps: each group leaves the viewers and their count alone

  predicate ViewersUntouched(s: Session, t: Session) {
    && t.viewers == s.viewers && t.end == s.end && t.contextOver == s.contextOver && t.operators == s.operators
    && t.mem.viewers == s.mem.viewers && t.mem.nextID == s.mem.nextID && t.mem.closed == s.mem.closed
    && t.mem.operatorViewers == s.mem.operatorViewers && t.mem.opening == s.mem.opening
    && t.fired == s.fired && t.firedAt == s.firedAt && t.mem.idleArmed == s.mem.idleArmed && t.mem.endClass == s.mem.endClass
  }

  lemma UntouchedViewersAgree(s: Session, t: Session)
    requires ViewersAgree(s) && WatchersAgree(s) && TimerAgrees(s) && ViewersUntouched(s, t)
    ensures ViewersAgree(t) && WatchersAgree(t) && TimerAgrees(t)
  {
    hide Counted;
  }

  lemma OpenStepFrame(s: Session, step: Step)
    requires IsOpenStep(step) && CanOpen(s, step)
    ensures ViewersUntouched(s, DoOpen(s, step))
  {
  }

  lemma OpenStepKeepsDials(s: Session, step: Step)
    requires WorkAgrees(s) && IsOpenStep(step) && CanOpen(s, step)
    ensures DialsAgree(DoOpen(s, step))
  {
    hide StreamAgrees, CancelsAgree, EndAgrees;
  }

  lemma OpenStepKeepsCancels(s: Session, step: Step)
    requires WorkAgrees(s) && IsOpenStep(step) && CanOpen(s, step)
    ensures CancelsAgree(DoOpen(s, step))
  {
    hide StreamAgrees;
  }

  lemma OpenStepKeepsStream(s: Session, step: Step)
    requires WorkAgrees(s) && IsOpenStep(step) && CanOpen(s, step)
    ensures StreamAgrees(DoOpen(s, step))
  {
    hide DialsAgree, CancelsAgree, Required;
  }

  lemma OpenStepKeepsEnd(s: Session, step: Step)
    requires WorkAgrees(s) && IsOpenStep(step) && CanOpen(s, step)
    ensures EndAgrees(DoOpen(s, step))
  {
    hide DialsAgree, CancelsAgree, StreamAgrees;
  }

  lemma OpenStepKeepsUpgrade(s: Session, step: Step)
    requires IsOpenStep(step) && CanOpen(s, step)
    ensures UpgradePending(DoOpen(s, step))
  {
    hide Counted;
  }

  lemma OpenStepKeeps(s: Session, step: Step)
    requires Inv(s) && IsOpenStep(step) && CanOpen(s, step)
    ensures Inv(DoOpen(s, step))
  {
    OpenStepFrame(s, step);
    UntouchedViewersAgree(s, DoOpen(s, step));
    OpenStepKeepsDials(s, step);
    OpenStepKeepsCancels(s, step);
    OpenStepKeepsStream(s, step);
    OpenStepKeepsEnd(s, step);
    OpenStepKeepsUpgrade(s, step);
    hide DoOpen, CanOpen, ViewersAgree, WatchersAgree, TimerAgrees, UpgradePending, DialsAgree, CancelsAgree, StreamAgrees, EndAgrees;
  }

  lemma CarryStepFrame(s: Session, step: Step)
    requires IsCarryStep(step) && CanCarry(s, step)
    ensures ViewersUntouched(s, DoCarry(s, step))
  {
  }

  /** Only an ambient stream is given up for another: the operator's is never found too weak, nor is its dial cancelled. */
  lemma OnlyAmbientIsReplaced(s: Session, step: Step)
    requires WorkAgrees(s) && IsCarryStep(step) && CanCarry(s, step)
    ensures DoCarry(s, step).worker.again ==> s.worker.purpose == Ambient
  {
    hide StreamAgrees;
  }

  lemma CarryLeavesDials(s: Session, step: Step)
    requires WorkAgrees(s) && IsCarryStep(step) && CanCarry(s, step)
    ensures var t := DoCarry(s, step);
            && t.dials == s.dials && t.mem.dialCancel == s.mem.dialCancel && t.mem.opening == s.mem.opening
            && t.mem.dialed == s.mem.dialed && !Picking(s.worker.pc) && !Picking(t.worker.pc)
            && t.worker.dial == s.worker.dial && t.worker.purpose == s.worker.purpose
  {
    hide StreamAgrees, CancelsAgree, EndAgrees, DialContextOver, Required;
  }

  lemma CarryStepKeepsDials(s: Session, step: Step)
    requires WorkAgrees(s) && IsCarryStep(step) && CanCarry(s, step)
    ensures DialsAgree(DoCarry(s, step))
  {
    hide StreamAgrees, CancelsAgree, DialContextOver, Required;
    OnlyAmbientIsReplaced(s, step);
    CarryLeavesDials(s, step);
    hide DoCarry, CanCarry, EndAgrees;
  }

  lemma CarryStepKeepsCancels(s: Session, step: Step)
    requires WorkAgrees(s) && IsCarryStep(step) && CanCarry(s, step)
    ensures CancelsAgree(DoCarry(s, step))
  {
    hide StreamAgrees;
  }

  lemma CarryStepKeepsStream(s: Session, step: Step)
    requires WorkAgrees(s) && IsCarryStep(step) && CanCarry(s, step)
    ensures StreamAgrees(DoCarry(s, step))
  {
    hide DialsAgree, CancelsAgree;
  }

  lemma CarryStepKeepsEnd(s: Session, step: Step)
    requires WorkAgrees(s) && IsCarryStep(step) && CanCarry(s, step)
    ensures EndAgrees(DoCarry(s, step))
  {
    hide DialsAgree, CancelsAgree, StreamAgrees;
  }

  /** A load that returns zero finds no operator viewer counted; the comparison and the read keep what it found. */
  lemma CarryStepKeepsUpgrade(s: Session, step: Step)
    requires Inv(s) && IsCarryStep(step) && CanCarry(s, step)
    ensures UpgradePending(DoCarry(s, step))
  {
    hide CancelsAgree, StreamAgrees, EndAgrees, TimerAgrees, WatchersAgree;
    CarryStepFrame(s, step);
    assert step == LoadToCheck && s.mem.operatorViewers <= 0 ==> Counted(s.viewers) == {};
    assert s.worker.pc.Checking? && s.worker.purpose == Ambient ==> s.mem.dialed == Some(Ambient);
    hide Counted, DialsAgree;
  }

  lemma CarryStepKeeps(s: Session, step: Step)
    requires Inv(s) && IsCarryStep(step) && CanCarry(s, step)
    ensures Inv(DoCarry(s, step))
  {
    CarryStepFrame(s, step);
    UntouchedViewersAgree(s, DoCarry(s, step));
    CarryStepKeepsDials(s, step);
    CarryStepKeepsCancels(s, step);
    CarryStepKeepsStream(s, step);
    CarryStepKeepsEnd(s, step);
    CarryStepKeepsUpgrade(s, step);
    hide DoCarry, CanCarry, ViewersAgree, WatchersAgree, TimerAgrees, UpgradePending, DialsAgree, CancelsAgree, StreamAgrees, EndAgrees;
  }

  lemma CloseStepFrame(s: Session, step: Step)
    requires IsCloseStep(step) && CanClose(s, step)
    ensures ViewersUntouched(s, DoClose(s, step))
  {
  }

  predicate DialsUntouched(s: Session, t: Session) {
    && t.dials == s.dials && t.mem.dialed == s.mem.dialed && t.mem.dialCancel == s.mem.dialCancel
    && t.worker == s.worker.(pc := t.worker.pc)
  }

  lemma CloseLeavesDials(s: Session, step: Step)
    requires IsCloseStep(step) && CanClose(s, step)
    ensures var t := DoClose(s, step);
            && DialsUntouched(s, t) && !Picking(s.worker.pc) && !t.worker.pc.Beginning?
            && (Picking(t.worker.pc) ==> s.worker.again)
  {
  }

  lemma CloseStepKeepsDials(s: Session, step: Step)
    requires WorkAgrees(s) && IsCloseStep(step) && CanClose(s, step)
    ensures DialsAgree(DoClose(s, step))
  {
    CloseLeavesDials(s, step);
    CloseStepFrame(s, step);
    hide StreamAgrees, CancelsAgree, EndAgrees, DoClose, CanClose;
  }

  lemma CloseStepKeepsCancels(s: Session, step: Step)
    requires WorkAgrees(s) && IsCloseStep(step) && CanClose(s, step)
    ensures CancelsAgree(DoClose(s, step))
  {
    hide StreamAgrees;
  }

  lemma CloseStepKeepsStream(s: Session, step: Step)
    requires WorkAgrees(s) && IsCloseStep(step) && CanClose(s, step)
    ensures StreamAgrees(DoClose(s, step))
  {
    hide DialsAgree, CancelsAgree;
  }

  lemma CloseStepKeepsEnd(s: Session, step: Step)
    requires WorkAgrees(s) && IsCloseStep(step) && CanClose(s, step)
    ensures EndAgrees(DoClose(s, step))
  {
    hide DialsAgree, CancelsAgree, StreamAgrees;
  }

  lemma CloseStepKeepsUpgrade(s: Session, step: Step)
    requires IsCloseStep(step) && CanClose(s, step)
    ensures UpgradePending(DoClose(s, step))
  {
    hide Counted;
  }

  lemma CloseStepKeeps(s: Session, step: Step)
    requires Inv(s) && IsCloseStep(step) && CanClose(s, step)
    ensures Inv(DoClose(s, step))
  {
    CloseStepFrame(s, step);
    UntouchedViewersAgree(s, DoClose(s, step));
    CloseStepKeepsDials(s, step);
    CloseStepKeepsCancels(s, step);
    CloseStepKeepsStream(s, step);
    CloseStepKeepsEnd(s, step);
    CloseStepKeepsUpgrade(s, step);
    hide DoClose, CanClose, ViewersAgree, WatchersAgree, TimerAgrees, UpgradePending, DialsAgree, CancelsAgree, StreamAgrees, EndAgrees;
  }

  /** Every step of every interleaving keeps the invariant. */
  lemma StepKeeps(s: Session, step: Step)
    requires Inv(s) && Can(s, step)
    ensures Inv(Do(s, step))
  {
    hide DoViewer, DoOpen, DoCarry, DoClose, DoEnd, CanViewer, CanOpen, CanCarry, CanClose, CanEnd, Inv;
    if IsViewerStep(step) {
      ViewerStepKeeps(s, step);
    } else if IsOpenStep(step) {
      OpenStepKeeps(s, step);
    } else if IsCarryStep(step) {
      CarryStepKeeps(s, step);
    } else if IsCloseStep(step) {
      CloseStepKeeps(s, step);
    } else {
      EndStepKeeps(s, step);
    }
  }
}
