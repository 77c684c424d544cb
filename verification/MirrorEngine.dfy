/**
 The engine over all its sessions: starts decided under its lock while the sessions' own counts move, ends that
 forget their session, the audit's counters, and the stop that waits for every worker.
 */
module MirrorEngine {
  import opened MirrorMemory
  import opened MirrorSteps
  import opened MirrorCapacity

  type Device = nat

  /** The engine's lock: free, or held by an ambient start that has still to load these devices' counts. */
  datatype Lock = Free | Deciding(device: Device, toLoad: set<Device>, held: nat)

  datatype Tally = Tally(started: nat, ended: nat, dialed: nat, closed: nat)

  /** `all` is every session ever started, in order; `sessions` is the map behind the lock, naming them by index. */
  datatype Engine = Engine(
    config: Config,
    all: seq<Session>,
    devices: seq<Device>,
    sessions: map<Device, nat>,
    lock: Lock,
    stopped: bool,
    stopping: set<nat>,
    running: nat,
    tally: Tally)

  function NewEngine(config: Config): Engine {
    Engine(config, [], [], map[], Free, false, {}, 0, Tally(0, 0, 0, 0))
  }

  datatype EngineStep =
    | Start(device: Device, purpose: Purpose)
    | LoadCount(device: Device)
    | Decide
    | Stop
    | OfSession(sid: nat, step: Step)

  /** What ties the sessions' indices to the map. */
  predicate Indexed(e: Engine) {
    && |e.devices| == |e.all|
    && (forall d :: d in e.sessions ==> e.sessions[d] < |e.all| && e.devices[e.sessions[d]] == d)
  }

  predicate Named(e: Engine, sid: nat)
    requires Indexed(e) && sid < |e.all|
  {
    e.devices[sid] in e.sessions && e.sessions[e.devices[sid]] == sid
  }

  predicate CanEngine(e: Engine, step: EngineStep)
    requires Indexed(e)
  {
    match step
    case Start(_, _) => e.lock == Free && !e.stopped
    case LoadCount(d) => e.lock.Deciding? && d in e.lock.toLoad && d in e.sessions
    case Decide => e.lock.Deciding? && e.lock.toLoad == {}
    case Stop => e.lock == Free
    case OfSession(sid, inner) =>
      && sid < |e.all|
      && Can(e.all[sid], inner)
      && (inner.BeginEnd? && inner.cause == ByStop ==> sid in e.stopping)
      && (inner == Forgotten ==> e.lock == Free)
      && (inner == Retire ==> e.running > 0)
  }

  function Created(e: Engine, device: Device, purpose: Purpose): Engine {
    e.(all := e.all + [NewSession(purpose)], devices := e.devices + [device],
       sessions := e.sessions[device := |e.all|], lock := Free, running := e.running + 1,
       tally := e.tally.(started := e.tally.started + 1))
  }

  /** An ambient viewer's start holds the lock while it loads every session's count; an operator's needs no count. */
  function Started(e: Engine, device: Device, purpose: Purpose): Engine {
    if device in e.sessions || Verdict(e.config, false, |e.sessions|, 0) != Admitted then e
    else if purpose == Operator then Created(e, device, purpose)
    else e.(lock := Deciding(device, e.sessions.Keys, 0))
  }

  function Counted(t: Tally, step: Step): Tally {
    if step == DialOpens then t.(dialed := t.dialed + 1)
    else if step == CloseStream(true) then t.(closed := t.closed + 1)
    else if step == Accounted then t.(ended := t.ended + 1)
    else t
  }

  function DoSession(e: Engine, sid: nat, step: Step): Engine
    requires Indexed(e) && CanEngine(e, OfSession(sid, step))
  {
    e.(all := e.all[sid := Do(e.all[sid], step)],
       sessions := if step == Forgotten && Named(e, sid) then e.sessions - {e.devices[sid]} else e.sessions,
       running := if step == Retire then e.running - 1 else e.running,
       tally := Counted(e.tally, step))
  }

  function DoEngine(e: Engine, step: EngineStep): Engine
    requires Indexed(e) && CanEngine(e, step)
  {
    match step
    case Start(device, purpose) => Started(e, device, purpose)
    case LoadCount(d) =>
      var unwatched := if e.all[e.sessions[d]].mem.operatorViewers == 0 then 1 else 0;
      e.(lock := e.lock.(toLoad := e.lock.toLoad - {d}, held := e.lock.held + unwatched))
    case Decide =>
      if Verdict(e.config, true, |e.sessions|, e.lock.held) != Admitted then e.(lock := Free)
      else Created(e, e.lock.device, Ambient)
    case Stop => e.(stopped := true, stopping := e.stopping + e.sessions.Values)
    case OfSession(sid, inner) => DoSession(e, sid, inner)
  }

  // ----- Counting over sessions

  function Total(all: seq<Session>, f: Session -> nat): nat {
    if all == [] then 0 else Total(all[..|all| - 1], f) + f(all[|all| - 1])
  }

  lemma {:induction false} TotalUpdated(all: seq<Session>, i: nat, s: Session, f: Session -> nat)
    requires i < |all|
    ensures Total(all[i := s], f) + f(all[i]) == Total(all, f) + f(s)
  {
    var last := |all| - 1;
    if i == last {
      assert all[i := s][..last] == all[..last];
    } else {
      assert all[i := s][..last] == all[..last][i := s];
      TotalUpdated(all[..last], i, s, f);
    }
  }

  lemma TotalAppended(all: seq<Session>, s: Session, f: Session -> nat)
    ensures Total(all + [s], f) == Total(all, f) + f(s)
  {
    assert (all + [s])[..|all|] == all;
  }

  lemma {:induction false} TotalZero(all: seq<Session>, f: Session -> nat)
    requires Total(all, f) == 0
    ensures forall i :: 0 <= i < |all| ==> f(all[i]) == 0
  {
    if all != [] {
      TotalZero(all[..|all| - 1], f);
    }
  }

  function IsRunning(s: Session): nat { if s.worker.pc == Retired then 0 else 1 }
  function HasEnded(s: Session): nat { if s.end == Over then 1 else 0 }
  function StreamsOf(s: Session): nat { s.streams }
  function ReleasedOf(s: Session): nat { s.released }
  function UnreleasedOf(s: Session): nat { s.unreleased }

  /** The counters are the sums they stand for. */
  ghost predicate TallyAgrees(e: Engine) {
    && e.running == Total(e.all, IsRunning)
    && e.tally.started == |e.all|
    && e.tally.ended == Total(e.all, HasEnded)
    && e.tally.dialed == Total(e.all, StreamsOf)
    && e.tally.closed == Total(e.all, ReleasedOf)
  }

  // ----- What the grid holds

  /** No operator opened this session, and none has ever watched it. */
  predicate Untouched(s: Session) { s.operators == 0 && s.mem.opening == Ambient }

  function UntouchedAmong(e: Engine, among: set<Device>): set<Device>
    requires Indexed(e)
  {
    set d | d in among && d in e.sessions && Untouched(e.all[e.sessions[d]])
  }

  /** The capacity's split: never more than the maximum live, never more than the allowance the grid's alone. */
  ghost predicate CapacityKept(e: Engine) {
    && Indexed(e)
    && |e.sessions| <= e.config.max
    && |UntouchedAmong(e, e.sessions.Keys)| <= TileAllowance(e.config)
    && (e.lock.Deciding? ==>
          && !e.stopped
          && e.lock.device !in e.sessions && |e.sessions| < e.config.max
          && e.lock.toLoad <= e.sessions.Keys
          && |UntouchedAmong(e, e.sessions.Keys - e.lock.toLoad)| <= e.lock.held)
  }

  /** A session's end has taken it out of the map. */
  predicate IsForgotten(s: Session) { s.end == Accounting || s.end == Over }

  /** A session is in the map exactly until its end forgets it. */
  ghost predicate MapAgrees(e: Engine) {
    && Indexed(e)
    && (forall sid :: 0 <= sid < |e.all| ==>
          (Named(e, sid) <==> !IsForgotten(e.all[sid])))
  }

  /** What a stop's snapshot misses was forgotten before it was taken. */
  ghost predicate StopAgrees(e: Engine) {
    && (forall sid :: sid in e.stopping ==> sid < |e.all|)
    && (e.stopped ==> forall sid :: 0 <= sid < |e.all| && sid !in e.stopping ==> IsForgotten(e.all[sid]))
  }

  ghost predicate SessionsKept(e: Engine) { forall sid :: 0 <= sid < |e.all| ==> Inv(e.all[sid]) }

  ghost predicate EngineInv(e: Engine) {
    SessionsKept(e) && CapacityKept(e) && MapAgrees(e) && StopAgrees(e) && TallyAgrees(e)
  }

  // ----- What one session's step does to what is counted of it

  lemma TouchedStays(s: Session, step: Step)
    requires Can(s, step)
    ensures Untouched(Do(s, step)) ==> Untouched(s)
  {
    StepLeavesHistory(s, step);
  }

  lemma StepLeavesHistory(s: Session, step: Step)
    requires Can(s, step)
    ensures var t := Do(s, step);
            && t.mem.opening == s.mem.opening && t.operators >= s.operators
            && (t.end == s.end || IsEndStep(step))
  {
    if IsViewerStep(step) {
      ViewerStepFrame(s, step);
      assert DoViewer(s, step).operators >= s.operators;
    } else if IsOpenStep(step) {
      OpenStepFrame(s, step);
    } else if IsCarryStep(step) {
      CarryStepFrame(s, step);
    } else if IsCloseStep(step) {
      CloseStepFrame(s, step);
    } else {
      EndStepFrame(s, step);
    }
    hide DoViewer, DoOpen, DoCarry, DoClose, DoEnd, CanViewer, CanOpen, CanCarry, CanClose, CanEnd;
  }

  /** Each counter moves in exactly the step that moves what it counts. */
  predicate CountedBy(s: Session, step: Step, t: Session) {
    && IsRunning(t) == IsRunning(s) - (if step == Retire then 1 else 0)
    && HasEnded(t) == HasEnded(s) + (if step == Accounted then 1 else 0)
    && t.streams == s.streams + (if step == DialOpens then 1 else 0)
    && t.released == s.released + (if step == CloseStream(true) then 1 else 0)
  }

  lemma OpenCounted(s: Session, step: Step)
    requires IsOpenStep(step) && CanOpen(s, step)
    ensures CountedBy(s, step, DoOpen(s, step))
  {
  }

  lemma CarryCounted(s: Session, step: Step)
    requires IsCarryStep(step) && CanCarry(s, step)
    ensures CountedBy(s, step, DoCarry(s, step))
  {
  }

  lemma CloseCounted(s: Session, step: Step)
    requires IsCloseStep(step) && CanClose(s, step)
    ensures CountedBy(s, step, DoClose(s, step))
  {
  }

  lemma EndCounted(s: Session, step: Step)
    requires IsEndStep(step) && CanEnd(s, step)
    ensures CountedBy(s, step, DoEnd(s, step))
  {
  }

  lemma StepCounted(s: Session, step: Step)
    requires Can(s, step)
    ensures CountedBy(s, step, Do(s, step))
  {
    if IsViewerStep(step) {
      ViewerStepFrame(s, step);
    } else if IsOpenStep(step) {
      OpenCounted(s, step);
    } else if IsCarryStep(step) {
      CarryCounted(s, step);
    } else if IsCloseStep(step) {
      CloseCounted(s, step);
    } else {
      EndCounted(s, step);
    }
    hide DoViewer, DoOpen, DoCarry, DoClose, DoEnd, CanViewer, CanOpen, CanCarry, CanClose, CanEnd;
  }

  // ----- Every step of the engine keeps the invariant

  lemma TotalsMove(e: Engine, sid: nat, t: Session)
    requires sid < |e.all|
    ensures var all := e.all[sid := t];
            && Total(all, IsRunning) == Total(e.all, IsRunning) + IsRunning(t) - IsRunning(e.all[sid])
            && Total(all, HasEnded) == Total(e.all, HasEnded) + HasEnded(t) - HasEnded(e.all[sid])
            && Total(all, StreamsOf) == Total(e.all, StreamsOf) + t.streams - e.all[sid].streams
            && Total(all, ReleasedOf) == Total(e.all, ReleasedOf) + t.released - e.all[sid].released
  {
    hide Total;
    TotalUpdated(e.all, sid, t, IsRunning);
    TotalUpdated(e.all, sid, t, HasEnded);
    TotalUpdated(e.all, sid, t, StreamsOf);
    TotalUpdated(e.all, sid, t, ReleasedOf);
  }

  lemma TallyMoves(t: Tally, step: Step)
    ensures var n := Counted(t, step);
            && n.started == t.started
            && n.ended == t.ended + (if step == Accounted then 1 else 0)
            && n.dialed == t.dialed + (if step == DialOpens then 1 else 0)
            && n.closed == t.closed + (if step == CloseStream(true) then 1 else 0)
  {
  }

  lemma SessionStepKeepsTally(e: Engine, sid: nat, step: Step)
    requires Indexed(e) && TallyAgrees(e) && CanEngine(e, OfSession(sid, step))
    ensures TallyAgrees(DoSession(e, sid, step))
  {
    hide Do, Can, Total, IsRunning, HasEnded, Counted;
    StepCounted(e.all[sid], step);
    TotalsMove(e, sid, Do(e.all[sid], step));
    TallyMoves(e.tally, step);
  }

  lemma CreationKeepsTally(e: Engine, device: Device, purpose: Purpose)
    requires Indexed(e) && TallyAgrees(e)
    ensures TallyAgrees(Created(e, device, purpose))
  {
    var s := NewSession(purpose);
    TotalAppended(e.all, s, IsRunning);
    TotalAppended(e.all, s, HasEnded);
    TotalAppended(e.all, s, StreamsOf);
    TotalAppended(e.all, s, ReleasedOf);
    hide Total;
  }

  lemma SessionStepKeepsMap(e: Engine, sid: nat, step: Step)
    requires MapAgrees(e) && CanEngine(e, OfSession(sid, step))
    ensures MapAgrees(DoSession(e, sid, step))
  {
    var t := DoSession(e, sid, step);
    StepMovesEnd(e.all[sid], step);
    hide Do, Can;
    forall other | 0 <= other < |t.all|
      ensures Named(t, other) <==> !IsForgotten(t.all[other])
    {
      assert Named(e, other) <==> !IsForgotten(e.all[other]);
      assert Named(e, sid) <==> !IsForgotten(e.all[sid]);
    }
  }

  /** A session's end reaches its accounting only by being forgotten. */
  lemma StepMovesEnd(s: Session, step: Step)
    requires Can(s, step)
    ensures var was, now := s.end, Do(s, step).end;
            && (step == Forgotten ==> was == Forgetting && now == Accounting)
            && (step != Forgotten ==> (IsForgotten(s) <==> IsForgotten(Do(s, step))))
  {
    hide DoViewer, DoOpen, DoCarry, DoClose, CanViewer, CanOpen, CanCarry, CanClose;
    StepLeavesHistory(s, step);
    if !IsEndStep(step) {
      hide Do, Can;
    }
  }

  lemma SessionStepKeepsStop(e: Engine, sid: nat, step: Step)
    requires Indexed(e) && StopAgrees(e) && CanEngine(e, OfSession(sid, step))
    ensures StopAgrees(DoSession(e, sid, step))
  {
    StepMovesEnd(e.all[sid], step);
    hide Do, Can;
  }

  /** Before it was stopped, the engine's map names exactly the sessions not forgotten, and a stop takes them all. */
  lemma StopKeepsStop(e: Engine)
    requires MapAgrees(e) && StopAgrees(e) && CanEngine(e, Stop)
    ensures StopAgrees(DoEngine(e, Stop))
  {
    var t := DoEngine(e, Stop);
    forall sid | 0 <= sid < |t.all| && sid !in t.stopping ensures IsForgotten(t.all[sid]) {
      assert Named(e, sid) ==> sid in e.sessions.Values;
    }
  }

  lemma UntouchedShrinks(before: Engine, after: Engine, among: set<Device>)
    requires Indexed(before) && Indexed(after)
    requires forall d :: d in among && d in after.sessions && Untouched(after.all[after.sessions[d]])
               ==> d in before.sessions && Untouched(before.all[before.sessions[d]])
    ensures |UntouchedAmong(after, among)| <= |UntouchedAmong(before, among)|
  {
    Subset(UntouchedAmong(after, among), UntouchedAmong(before, among));
  }

  lemma {:induction false} Subset(small: set<Device>, large: set<Device>)
    requires small <= large
    ensures |small| <= |large|
  {
    if d :| d in small {
      Subset(small - {d}, large - {d});
    }
  }

  lemma SessionStepKeepsCapacity(e: Engine, sid: nat, step: Step)
    requires CapacityKept(e) && CanEngine(e, OfSession(sid, step))
    ensures CapacityKept(DoSession(e, sid, step))
  {
    var t := DoSession(e, sid, step);
    TouchedStays(e.all[sid], step);
    hide Do, Can, Untouched, TileAllowance;
    UntouchedShrinks(e, t, e.sessions.Keys);
    Subset(t.sessions.Keys, e.sessions.Keys);
    Subset(UntouchedAmong(t, t.sessions.Keys), UntouchedAmong(t, e.sessions.Keys));
    if e.lock.Deciding? {
      UntouchedShrinks(e, t, e.sessions.Keys - e.lock.toLoad);
    }
  }

  lemma UntouchedSame(e: Engine, t: Engine, among: set<Device>)
    requires Indexed(e) && t.all == e.all && t.sessions == e.sessions && t.devices == e.devices
    ensures Indexed(t) && UntouchedAmong(t, among) == UntouchedAmong(e, among)
  {
    hide Untouched;
  }

  lemma UntouchedWith(e: Engine, among: set<Device>, d: Device)
    requires Indexed(e) && d in e.sessions && d !in among
    ensures |UntouchedAmong(e, among + {d})| ==
            |UntouchedAmong(e, among)| + if Untouched(e.all[e.sessions[d]]) then 1 else 0
  {
    hide Untouched;
    var before, after := UntouchedAmong(e, among), UntouchedAmong(e, among + {d});
    assert after == if Untouched(e.all[e.sessions[d]]) then before + {d} else before;
  }

  /** The count of one more session: it is held if no operator watches it now, so surely if none ever did. */
  lemma LoadKeepsCapacity(e: Engine, d: Device)
    requires CapacityKept(e) && SessionsKept(e) && CanEngine(e, LoadCount(d))
    ensures CapacityKept(DoEngine(e, LoadCount(d)))
  {
    hide Untouched, UntouchedAmong, TileAllowance, Inv;
    var t := DoEngine(e, LoadCount(d));
    var loaded := e.sessions.Keys - e.lock.toLoad;
    assert t.sessions.Keys - t.lock.toLoad == loaded + {d};
    UntouchedIsUnwatched(e.all[e.sessions[d]]);
    UntouchedWith(e, loaded, d);
    UntouchedSame(e, t, loaded + {d});
    UntouchedSame(e, t, e.sessions.Keys);
  }

  lemma UntouchedIsUnwatched(s: Session)
    requires Inv(s)
    ensures Untouched(s) ==> s.mem.operatorViewers == 0
  {
    if Untouched(s) {
      assert MirrorSteps.Counted(s.viewers) == {};
    }
  }

  lemma UntouchedCreated(e: Engine, device: Device, purpose: Purpose)
    requires Indexed(e) && device !in e.sessions
    ensures Indexed(Created(e, device, purpose))
    ensures UntouchedAmong(Created(e, device, purpose), e.sessions.Keys) == UntouchedAmong(e, e.sessions.Keys)
  {
    hide Untouched;
  }

  lemma CreationKeepsCapacity(e: Engine, device: Device, purpose: Purpose)
    requires CapacityKept(e) && device !in e.sessions && |e.sessions| < e.config.max
    requires purpose == Ambient ==> |UntouchedAmong(e, e.sessions.Keys)| < TileAllowance(e.config)
    ensures CapacityKept(Created(e, device, purpose))
  {
    var t := Created(e, device, purpose);
    assert t.sessions.Keys == e.sessions.Keys + {device};
    UntouchedCreated(e, device, purpose);
    UntouchedWith(t, e.sessions.Keys, device);
    hide UntouchedAmong, TileAllowance;
  }

  lemma CreationKeepsRest(e: Engine, device: Device, purpose: Purpose)
    requires SessionsKept(e) && MapAgrees(e) && StopAgrees(e) && !e.stopped && device !in e.sessions
    ensures var t := Created(e, device, purpose); SessionsKept(t) && MapAgrees(t) && StopAgrees(t)
  {
    NewSessionKeeps(purpose);
    hide Inv;
    var t := Created(e, device, purpose);
    forall sid | 0 <= sid < |t.all|
      ensures Named(t, sid) <==> !IsForgotten(t.all[sid])
    {
      if sid < |e.all| {
        assert Named(e, sid) <==> !IsForgotten(e.all[sid]);
      }
    }
  }

  lemma SessionStepKeepsSessions(e: Engine, sid: nat, step: Step)
    requires Indexed(e) && SessionsKept(e) && CanEngine(e, OfSession(sid, step))
    ensures SessionsKept(DoSession(e, sid, step))
  {
    StepKeeps(e.all[sid], step);
    hide Inv, Do, Can;
  }

  lemma StepKeepsIndex(e: Engine, step: EngineStep)
    requires Indexed(e) && CanEngine(e, step)
    requires step == Decide ==> e.lock.device !in e.sessions
    ensures Indexed(DoEngine(e, step))
  {
    hide Can, Do, TileAllowance;
  }

  lemma EngineStepKeeps(e: Engine, step: EngineStep)
    requires EngineInv(e) && CanEngine(e, step)
    ensures EngineInv(DoEngine(e, step))
  {
    StepKeepsIndex(e, step);
    hide SessionsKept, CapacityKept, TallyAgrees, TileAllowance, Created, Can, Do;
    match step
    case OfSession(sid, inner) =>
      SessionStepKeepsSessions(e, sid, inner);
      SessionStepKeepsCapacity(e, sid, inner);
      SessionStepKeepsMap(e, sid, inner);
      SessionStepKeepsStop(e, sid, inner);
      SessionStepKeepsTally(e, sid, inner);
      hide DoSession;
    case LoadCount(d) =>
      LoadKeepsCapacity(e, d);
      LockLeavesRest(e, DoEngine(e, step));
    case Start(device, purpose) => StartKeeps(e, device, purpose);
    case Decide => DecideKeeps(e);
    case Stop =>
      StopKeepsCapacity(e);
      StopKeepsStop(e);
      LockLeavesRest(e, DoEngine(e, step));
  }

  lemma LockLeavesRest(e: Engine, t: Engine)
    requires Indexed(e) && SessionsKept(e) && MapAgrees(e) && TallyAgrees(e)
    requires t.all == e.all && t.devices == e.devices && t.sessions == e.sessions && t.running == e.running && t.tally == e.tally
    ensures SessionsKept(t) && MapAgrees(t) && TallyAgrees(t)
  {
    hide Inv, Total;
    forall sid | 0 <= sid < |t.all| ensures Named(t, sid) <==> !IsForgotten(t.all[sid]) {
      assert Named(e, sid) <==> !IsForgotten(e.all[sid]);
    }
  }

  lemma StopKeepsCapacity(e: Engine)
    requires CapacityKept(e) && CanEngine(e, Stop)
    ensures CapacityKept(DoEngine(e, Stop))
  {
    hide Untouched, TileAllowance;
    assert UntouchedAmong(DoEngine(e, Stop), e.sessions.Keys) == UntouchedAmong(e, e.sessions.Keys);
  }

  lemma StartKeeps(e: Engine, device: Device, purpose: Purpose)
    requires EngineInv(e) && CanEngine(e, Start(device, purpose))
    ensures EngineInv(Started(e, device, purpose))
  {
    hide SessionsKept, TallyAgrees, TileAllowance, Created, Untouched;
    if device in e.sessions || |e.sessions| >= e.config.max {
    } else if purpose == Operator {
      CreationKeepsCapacity(e, device, purpose);
      CreationKeepsRest(e, device, purpose);
      CreationKeepsTally(e, device, purpose);
    } else {
      var t := Started(e, device, purpose);
      LockLeavesRest(e, t);
      assert UntouchedAmong(t, t.sessions.Keys) == UntouchedAmong(e, e.sessions.Keys);
      assert t.sessions.Keys - t.lock.toLoad == {};
      assert UntouchedAmong(t, {}) == {};
    }
  }

  lemma DecideKeeps(e: Engine)
    requires EngineInv(e) && CanEngine(e, Decide)
    ensures EngineInv(DoEngine(e, Decide))
  {
    hide SessionsKept, TallyAgrees, TileAllowance, Created, Untouched;
    assert e.sessions.Keys - e.lock.toLoad == e.sessions.Keys;
    if e.lock.held >= TileAllowance(e.config) {
      var t := DoEngine(e, Decide);
      LockLeavesRest(e, t);
      assert UntouchedAmong(t, t.sessions.Keys) == UntouchedAmong(e, e.sessions.Keys);
    } else {
      CreationKeepsCapacity(e, e.lock.device, Ambient);
      CreationKeepsRest(e, e.lock.device, Ambient);
      CreationKeepsTally(e, e.lock.device, Ambient);
    }
  }

  lemma NewEngineKeeps(config: Config)
    ensures EngineInv(NewEngine(config))
  {
    assert UntouchedAmong(NewEngine(config), {}) == {};
  }
}
