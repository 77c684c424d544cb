/** What holds after every run of the engine: the capacity's split, what a stop leaves, and what neither promises. */
module MirrorEngineRuns {
  import opened MirrorMemory
  import opened MirrorRuns
  import opened MirrorSteps
  import opened MirrorCapacity
  import opened MirrorEngine

  predicate EngineRuns(e: Engine, steps: seq<EngineStep>)
    requires Indexed(e)
    decreases |steps|
  {
    steps == [] ||
    (CanEngine(e, steps[0]) && Indexed(DoEngine(e, steps[0])) && EngineRuns(DoEngine(e, steps[0]), steps[1..]))
  }

  function AfterAll(e: Engine, steps: seq<EngineStep>): Engine
    requires Indexed(e) && EngineRuns(e, steps)
    decreases |steps|
  {
    if steps == [] then e else AfterAll(DoEngine(e, steps[0]), steps[1..])
  }

  lemma {:induction false} EngineRunKeeps(e: Engine, steps: seq<EngineStep>)
    requires EngineInv(e) && EngineRuns(e, steps)
    ensures EngineInv(AfterAll(e, steps)) && AfterAll(e, steps).config == e.config
    decreases |steps|
  {
    assert Indexed(e);
    hide EngineInv, Indexed, CanEngine, DoEngine;
    if steps != [] {
      EngineStepKeeps(e, steps[0]);
      ConfigStays(e, steps[0]);
      EngineRunKeeps(DoEngine(e, steps[0]), steps[1..]);
    }
  }

  lemma ConfigStays(e: Engine, step: EngineStep)
    requires Indexed(e) && CanEngine(e, step)
    ensures DoEngine(e, step).config == e.config
  {
    hide Can, Do, TileAllowance;
  }

  /** An engine that some run reaches from its construction. */
  ghost predicate Reached(config: Config, e: Engine) {
    exists steps :: EngineRuns(NewEngine(config), steps) && e == AfterAll(NewEngine(config), steps)
  }

  lemma ReachedKeeps(config: Config, e: Engine)
    requires Reached(config, e)
    ensures EngineInv(e) && e.config == config
  {
    NewEngineKeeps(config);
    var steps :| EngineRuns(NewEngine(config), steps) && e == AfterAll(NewEngine(config), steps);
    EngineRunKeeps(NewEngine(config), steps);
  }

  // ----- The capacity and its split

  function OperatorsOwn(e: Engine): set<Device>
    requires Indexed(e)
  {
    set d | d in e.sessions && !Untouched(e.all[e.sessions[d]])
  }

  /** Never more sessions than the maximum, never more of them the grid's alone than the allowance. */
  lemma CapacityHolds(config: Config, e: Engine)
    requires Reached(config, e)
    ensures Indexed(e) && |e.sessions| <= config.max
    ensures |UntouchedAmong(e, e.sessions.Keys)| <= TileAllowance(config)
  {
    ReachedKeeps(config, e);
  }

  /**
   The grid alone never refuses the operator: when a start by the operator meets a full plane, at least the reserve's
   number of its sessions were opened by an operator or have been watched by one.
   */
  lemma OnlyOperatorsFillTheReserve(config: Config, e: Engine)
    requires Consistent(config) && Reached(config, e) && |e.sessions| >= config.max
    ensures Indexed(e) && |OperatorsOwn(e)| >= config.max - TileAllowance(config) >= config.reserve
  {
    CapacityHolds(config, e);
    hide Reached, Untouched, AllowanceKbps;
    assert e.sessions.Keys == OperatorsOwn(e) + UntouchedAmong(e, e.sessions.Keys);
  }

  /** Sessions no operator is watching now that an operator has opened or watched before. */
  function LeftBehind(e: Engine): set<Device>
    requires Indexed(e)
  {
    set d | d in e.sessions && !Untouched(e.all[e.sessions[d]]) && e.all[e.sessions[d]].mem.operatorViewers == 0
  }

  function Watched(e: Engine): set<Device>
    requires Indexed(e)
  {
    set d | d in e.sessions && e.all[e.sessions[d]].mem.operatorViewers != 0
  }

  /**
   What a plane holds: sessions watched by an operator now, sessions operators have left behind, and the grid's own, each
   session once. As a corollary, an operator meets a full plane with the whole reserve watched exactly when the last two
   leave the reserve free.
   */
  lemma RefusalCounts(config: Config, e: Engine)
    requires Consistent(config) && Reached(config, e)
    ensures Indexed(e) && |Watched(e)| + |LeftBehind(e)| + |UntouchedAmong(e, e.sessions.Keys)| == |e.sessions|
    ensures |e.sessions| == config.max ==>
              (|Watched(e)| >= config.reserve <==>
               |LeftBehind(e)| + |UntouchedAmong(e, e.sessions.Keys)| <= config.max - config.reserve)
  {
    ReachedKeeps(config, e);
    hide Reached, SessionsKept, CapacityKept, MapAgrees, StopAgrees, TallyAgrees;
    assert Indexed(e) && SessionsKept(e) by { CapacityHolds(config, e); }
    UntouchedAreUnwatched(e);
    hide UntouchedAmong, Watched, LeftBehind;
    SizesAdd(e.sessions.Keys, Watched(e), LeftBehind(e), UntouchedAmong(e, e.sessions.Keys));
  }

  lemma UntouchedAreUnwatched(e: Engine)
    requires Indexed(e) && SessionsKept(e)
    ensures e.sessions.Keys == Watched(e) + LeftBehind(e) + UntouchedAmong(e, e.sessions.Keys)
    ensures Watched(e) !! LeftBehind(e) !! UntouchedAmong(e, e.sessions.Keys)
  {
    hide Inv, Untouched;
    forall d | d in e.sessions && Untouched(e.all[e.sessions[d]]) ensures d !in Watched(e) {
      UntouchedIsUnwatched(e.all[e.sessions[d]]);
    }
  }

  lemma SizesAdd(all: set<Device>, a: set<Device>, b: set<Device>, c: set<Device>)
    requires all == a + b + c && a !! b !! c
    ensures |all| == |a| + |b| + |c|
  {
    assert |a + b| == |a| + |b|;
  }

  // ----- A start decided while no session moves

  function UnwatchedAmong(e: Engine, among: set<Device>): set<Device>
    requires Indexed(e)
  {
    set d | d in among && d in e.sessions && e.all[e.sessions[d]].mem.operatorViewers == 0
  }

  function Loads(devices: seq<Device>): seq<EngineStep> {
    if devices == [] then [Decide] else [LoadCount(devices[0])] + Loads(devices[1..])
  }

  function Decided(e: Engine, held: nat): Engine
    requires e.lock.Deciding?
  {
    if Verdict(e.config, true, |e.sessions|, held) == Admitted then Created(e, e.lock.device, Ambient) else e.(lock := Free)
  }

  lemma LoadTakesOne(e: Engine, d: Device)
    requires Indexed(e) && e.lock.Deciding? && d in e.lock.toLoad && d in e.sessions
    ensures |UnwatchedAmong(e, e.lock.toLoad)| == |UnwatchedAmong(e, e.lock.toLoad - {d})| +
              if e.all[e.sessions[d]].mem.operatorViewers == 0 then 1 else 0
  {
    var before, after := UnwatchedAmong(e, e.lock.toLoad), UnwatchedAmong(e, e.lock.toLoad - {d});
    assert before == if e.all[e.sessions[d]].mem.operatorViewers == 0 then after + {d} else after;
  }

  lemma {:induction false} LoadsTally(e: Engine, devices: seq<Device>)
    requires Indexed(e) && e.lock.Deciding? && EngineRuns(e, Loads(devices))
    ensures AfterAll(e, Loads(devices)) == Decided(e, e.lock.held + |UnwatchedAmong(e, e.lock.toLoad)|)
    decreases |devices|
  {
    hide Verdict, Created;
    var steps := Loads(devices);
    if devices == [] {
      assert steps == [Decide] && steps[1..] == [];
      assert UnwatchedAmong(e, {}) == {};
    } else {
      var d := devices[0];
      assert steps[0] == LoadCount(d) && steps[1..] == Loads(devices[1..]);
      var t := DoEngine(e, LoadCount(d));
      LoadTakesOne(e, d);
      assert UnwatchedAmong(t, t.lock.toLoad) == UnwatchedAmong(e, e.lock.toLoad - {d});
      LoadsTally(t, devices[1..]);
      assert Created(t, t.lock.device, Ambient) == Created(e, e.lock.device, Ambient) by {
        CreatedAlike(t, e, e.lock.device);
      }
    }
  }

  lemma CreatedAlike(t: Engine, e: Engine, device: Device)
    requires t == e.(lock := t.lock)
    ensures Created(t, device, Ambient) == Created(e, device, Ambient)
  {
  }

  /**
   A tile's start that no viewer interrupts creates a session exactly when the refusal of the plane, counted over the
   sessions no operator is watching, admits it; otherwise it leaves the engine as it was.
   */
  lemma QuietStart(e: Engine, device: Device, devices: seq<Device>)
    requires Indexed(e) && e.lock == Free && !e.stopped && device !in e.sessions && |e.sessions| < e.config.max
    requires EngineRuns(e, [Start(device, Ambient)] + Loads(devices))
    ensures AfterAll(e, [Start(device, Ambient)] + Loads(devices)) ==
            if Verdict(e.config, true, |e.sessions|, |UnwatchedAmong(e, e.sessions.Keys)|) == Admitted
            then Created(e, device, Ambient) else e
  {
    var steps := [Start(device, Ambient)] + Loads(devices);
    assert steps[0] == Start(device, Ambient) && steps[1..] == Loads(devices);
    var t := DoEngine(e, Start(device, Ambient));
    assert t == e.(lock := Deciding(device, e.sessions.Keys, 0));
    hide Verdict, Created, Loads;
    LoadsTally(t, devices);
    assert UnwatchedAmong(t, t.lock.toLoad) == UnwatchedAmong(e, e.sessions.Keys);
    CreatedAlike(t, e, device);
  }

  // ----- The stop

  /** What a stop's return with no error has waited for: the workers of its snapshot, then every goroutine. */
  predicate StopReturned(e: Engine) {
    && e.stopped && e.running == 0
    && forall sid :: sid in e.stopping && sid < |e.all| ==> IsOver(e.all[sid].worker.pc)
  }

  datatype Audit = Audit(started: nat, ended: nat, dialed: nat, closed: nat, stillOpen: set<Device>)

  function AuditOf(e: Engine): Audit {
    Audit(e.tally.started, e.tally.ended, e.tally.dialed, e.tally.closed, e.sessions.Keys)
  }

  predicate Clean(a: Audit) { a.stillOpen == {} && a.dialed == a.closed }

  /**
   A stop that returned leaves nothing: every session there ever was has ended and let its stream go, the map is empty,
   and the audit is clean exactly when no stream's close failed.
   */
  lemma StopLeavesNothing(config: Config, e: Engine)
    requires Reached(config, e) && StopReturned(e)
    ensures forall sid :: 0 <= sid < |e.all| ==>
              && e.all[sid].worker.pc == Retired && e.all[sid].end == Over && e.all[sid].open == {}
              && e.all[sid].streams == e.all[sid].released + e.all[sid].unreleased
    ensures e.sessions == map[]
    ensures var a := AuditOf(e);
            && a.started == a.ended == |e.all|
            && a.dialed == a.closed + Total(e.all, UnreleasedOf)
            && (Clean(a) <==> forall sid :: 0 <= sid < |e.all| ==> e.all[sid].unreleased == 0)
  {
    hide Reached, CapacityKept, StopAgrees, Total, Inv;
    ReachedKeeps(config, e);
    NoneRunning(e.all);
    forall sid | 0 <= sid < |e.all|
      ensures e.all[sid].worker.pc == Retired && e.all[sid].end == Over && e.all[sid].open == {}
      ensures e.all[sid].streams == e.all[sid].released + e.all[sid].unreleased
    {
      RetiredMeansReleased(e.all[sid]);
    }
    hide SessionsKept;
    EveryEndIsCounted(e.all);
    StreamsAddUp(e.all);
    NoneUnreleased(e.all);
    if d :| d in e.sessions {
      NoneNamed(e, d);
    }
  }

  lemma NoneNamed(e: Engine, d: Device)
    requires MapAgrees(e) && d in e.sessions
    ensures e.all[e.sessions[d]].end != Over
  {
    assert Named(e, e.sessions[d]);
  }

  lemma RetiredMeansReleased(s: Session)
    requires Inv(s) && s.worker.pc == Retired
    ensures s.end == Over && s.open == {} && s.streams == s.released + s.unreleased
  {
  }

  lemma {:induction false} EveryEndIsCounted(all: seq<Session>)
    requires forall sid :: 0 <= sid < |all| ==> all[sid].end == Over
    ensures Total(all, HasEnded) == |all|
  {
    if all != [] {
      EveryEndIsCounted(all[..|all| - 1]);
    }
  }

  lemma {:induction false} StreamsAddUp(all: seq<Session>)
    requires forall sid :: 0 <= sid < |all| ==> all[sid].streams == all[sid].released + all[sid].unreleased
    ensures Total(all, StreamsOf) == Total(all, ReleasedOf) + Total(all, UnreleasedOf)
  {
    if all != [] {
      StreamsAddUp(all[..|all| - 1]);
    }
  }

  lemma {:induction false} NoneUnreleased(all: seq<Session>)
    ensures Total(all, UnreleasedOf) == 0 <==> forall sid :: 0 <= sid < |all| ==> all[sid].unreleased == 0
  {
    if all != [] {
      var last := |all| - 1;
      NoneUnreleased(all[..last]);
      assert all == all[..last] + [all[last]];
    }
  }

  /** What a stop's snapshot leaves out had been forgotten before it. */
  lemma SnapshotMissesTheForgotten(config: Config, e: Engine, sid: nat)
    requires Reached(config, e) && e.stopped && sid < |e.all| && sid !in e.stopping
    ensures IsForgotten(e.all[sid])
  {
    ReachedKeeps(config, e);
  }

  /**
   When the final wait waits on nothing: with the snapshot's workers finished, no goroutine is left exactly when each of
   them, and the worker of each session forgotten before the stop, has returned.
   */
  lemma FinalWaitIsIdle(config: Config, e: Engine)
    requires Reached(config, e) && e.stopped
    requires forall sid :: sid in e.stopping && sid < |e.all| ==> IsOver(e.all[sid].worker.pc)
    ensures e.running == 0 <==>
            && (forall sid :: sid in e.stopping && sid < |e.all| ==> e.all[sid].worker.pc == Retired)
            && (forall sid :: 0 <= sid < |e.all| && sid !in e.stopping && IsForgotten(e.all[sid])
                  ==> e.all[sid].worker.pc == Retired)
    ensures (exists sid :: 0 <= sid < |e.all| && !IsOver(e.all[sid].worker.pc)) <==>
            exists sid :: 0 <= sid < |e.all| && sid !in e.stopping && IsForgotten(e.all[sid]) && !IsOver(e.all[sid].worker.pc)
  {
    hide Reached, SessionsKept, CapacityKept, MapAgrees, Total;
    ReachedKeeps(config, e);
    NoneRunning(e.all);
  }

  lemma {:induction false} NoneRunning(all: seq<Session>)
    ensures Total(all, IsRunning) == 0 <==> forall sid :: 0 <= sid < |all| ==> all[sid].worker.pc == Retired
  {
    if all != [] {
      var front, last := all[..|all| - 1], all[|all| - 1];
      assert Total(all, IsRunning) == Total(front, IsRunning) + IsRunning(last);
      assert forall sid :: 0 <= sid < |front| ==> front[sid] == all[sid];
      NoneRunning(front);
      hide Total;
      if i :| 0 <= i < |front| && front[i].worker.pc != Retired {
        assert all[i].worker.pc != Retired;
      } else if last.worker.pc == Retired {
        forall sid | 0 <= sid < |all| ensures all[sid].worker.pc == Retired {
          assert sid < |front| ==> all[sid] == front[sid];
        }
      } else {
        assert all[|all| - 1].worker.pc != Retired;
      }
    }
  }

  /**
   Nobody waits for nobody: while a goroutine runs, the engine has a step that no viewer, start or stop has to bring. A
   start that holds the lock can go on with its counting or its decision; otherwise some session can go on.
   */
  lemma EngineNeverStuck(config: Config, e: Engine)
    requires Reached(config, e) && e.running > 0
    ensures Indexed(e)
    ensures if e.lock.Deciding? then CanEngine(e, Decide) || exists d :: CanEngine(e, LoadCount(d))
            else exists sid, step :: CanEngine(e, OfSession(sid, step)) && (IsWorkStep(step) || IsEnding(step))
  {
    hide Reached, Inv, Can;
    ReachedKeeps(config, e);
    if e.lock.Deciding? {
      DecisionGoes(e);
    } else {
      NoneRunning(e.all);
      hide UntouchedAmong, Total;
      var sid :| 0 <= sid < |e.all| && e.all[sid].worker.pc != Retired;
      var step := SessionGoes(e.all[sid]);
      assert CanEngine(e, OfSession(sid, step));
    }
  }

  lemma DecisionGoes(e: Engine)
    requires CapacityKept(e) && e.lock.Deciding?
    ensures CanEngine(e, Decide) || exists d :: CanEngine(e, LoadCount(d))
  {
    hide UntouchedAmong, TileAllowance;
    if d :| d in e.lock.toLoad {
      assert CanEngine(e, LoadCount(d));
    }
  }

  lemma SessionGoes(s: Session) returns (step: Step)
    requires Inv(s) && s.worker.pc != Retired
    ensures Can(s, step) && (IsWorkStep(step) || IsEnding(step)) && !(step.BeginEnd? && step.cause == ByStop)
  {
    if s.worker.pc == Ending && s.end != Over {
      step := EndGoes(s);
    } else {
      WorkerGoes(s);
      hide Can;
      step :| Can(s, step) && IsWorkStep(step);
    }
  }

  // ----- One device, one stream

  predicate Holds(e: Engine, device: Device, sid: nat) {
    sid < |e.all| && sid < |e.devices| && e.devices[sid] == device && e.all[sid].open != {}
  }

  /** Of two sessions of one device, one has been forgotten. */
  lemma OneOfTwoIsForgotten(config: Config, e: Engine, i: nat, j: nat)
    requires Reached(config, e) && i < |e.all| == |e.devices| && j < |e.all| && i != j && e.devices[i] == e.devices[j]
    ensures IsForgotten(e.all[i]) || IsForgotten(e.all[j])
  {
    ReachedKeeps(config, e);
    assert Named(e, i) || IsForgotten(e.all[i]);
    assert Named(e, j) || IsForgotten(e.all[j]);
  }

  /**
   A device has at most one open stream exactly when no forgotten session of it still holds one beside another session
   that does: a forgotten session whose worker has not let go is the only way to two.
   */
  lemma OneStreamOfADevice(config: Config, e: Engine, device: Device)
    requires Reached(config, e)
    ensures (forall i: nat, j: nat :: Holds(e, device, i) && Holds(e, device, j) ==> i == j) <==>
            (forall i: nat, j: nat :: Holds(e, device, i) && IsForgotten(e.all[i]) && Holds(e, device, j) ==> i == j)
  {
    hide Reached, IsForgotten;
    CapacityHolds(config, e);
    if forall i: nat, j: nat :: Holds(e, device, i) && IsForgotten(e.all[i]) && Holds(e, device, j) ==> i == j {
      forall i: nat, j: nat | Holds(e, device, i) && Holds(e, device, j) ensures i == j {
        if i != j {
          OneOfTwoIsForgotten(config, e, i, j);
        }
      }
    }
  }

  lemma StoppedStep(e: Engine, step: EngineStep)
    requires CapacityKept(e) && e.stopped && CanEngine(e, step)
    ensures var t := DoEngine(e, step); t.stopped && |t.all| == |e.all| && t.running <= e.running
  {
    hide Can, Do, TileAllowance, UntouchedAmong;
  }

  /** And it stays so: a stopped engine starts no session, so nothing runs in it again. */
  lemma {:induction false} StoppedStaysStopped(e: Engine, steps: seq<EngineStep>)
    requires EngineInv(e) && e.stopped && EngineRuns(e, steps)
    ensures var t := AfterAll(e, steps); t.stopped && |t.all| == |e.all| && t.running <= e.running
    decreases |steps|
  {
    assert Indexed(e);
    hide EngineInv, Indexed, CanEngine, DoEngine;
    if steps != [] {
      EngineStepKeeps(e, steps[0]);
      StoppedStep(e, steps[0]);
      StoppedStaysStopped(DoEngine(e, steps[0]), steps[1..]);
    }
  }

  // ----- What the engine does not keep

  lemma {:induction false} RunsCompose(e: Engine, first: seq<EngineStep>, then': seq<EngineStep>)
    requires Indexed(e) && EngineRuns(e, first)
    requires Indexed(AfterAll(e, first)) && EngineRuns(AfterAll(e, first), then')
    ensures EngineRuns(e, first + then') && AfterAll(e, first + then') == AfterAll(AfterAll(e, first), then')
    decreases |first|
  {
    hide CanEngine, DoEngine;
    if first == [] {
      assert first + then' == then';
    } else {
      RunsCompose(DoEngine(e, first[0]), first[1..], then');
      assert (first + then')[1..] == first[1..] + then';
    }
  }

  lemma OneMore(config: Config, e: Engine, step: EngineStep)
    requires Reached(config, e) && Indexed(e) && CanEngine(e, step) && Indexed(DoEngine(e, step))
    ensures Reached(config, DoEngine(e, step))
  {
    var steps :| EngineRuns(NewEngine(config), steps) && e == AfterAll(NewEngine(config), steps);
    hide CanEngine, DoEngine, Indexed;
    var after := DoEngine(e, step);
    assert EngineRuns(after, []) && AfterAll(after, []) == after;
    assert [step][1..] == [];
    assert EngineRuns(e, [step]);
    assert AfterAll(e, [step]) == after;
    RunsCompose(NewEngine(config), steps, [step]);
  }

  lemma NewIsReached(config: Config)
    ensures Reached(config, NewEngine(config))
  {
    assert EngineRuns(NewEngine(config), []);
    assert AfterAll(NewEngine(config), []) == NewEngine(config);
  }

  /** Steps of a session that concern nobody else but the counters. */
  predicate IsPrivate(step: Step) {
    step != Forgotten && step != Retire && !(step.BeginEnd? && step.cause == ByStop)
  }

  /** One session's private run is a run of the engine. */
  lemma {:induction false} SessionRunLifts(config: Config, e: Engine, sid: nat, steps: seq<Step>) returns (tally: Tally)
    requires Reached(config, e) && Indexed(e) && sid < |e.all| && Runs(e.all[sid], steps)
    requires forall k :: 0 <= k < |steps| ==> IsPrivate(steps[k])
    ensures Reached(config, e.(all := e.all[sid := After(e.all[sid], steps)], tally := tally))
    decreases |steps|
  {
    hide Reached, Can, Do;
    if steps == [] {
      tally := e.tally;
      assert e.all[sid := e.all[sid]] == e.all;
    } else {
      var step := OfSession(sid, steps[0]);
      assert IsPrivate(steps[0]);
      OneMore(config, e, step);
      var t := DoEngine(e, step);
      assert t == e.(all := e.all[sid := Do(e.all[sid], steps[0])], tally := t.tally);
      tally := SessionRunLifts(config, t, sid, steps[1..]);
      assert t.all[sid := After(t.all[sid], steps[1..])] == e.all[sid := After(e.all[sid], steps)];
    }
  }

  ghost predicate LeadsTo(s: Session, t: Session) {
    exists steps :: Runs(s, steps) && t == After(s, steps) && forall k :: 0 <= k < |steps| ==> IsPrivate(steps[k])
  }

  lemma Here(s: Session)
    ensures LeadsTo(s, s)
  {
    assert Runs(s, []) && After(s, []) == s;
  }

  lemma Then(s: Session, t: Session, step: Step)
    requires LeadsTo(s, t) && IsPrivate(step) && Can(t, step)
    ensures LeadsTo(s, Do(t, step))
  {
    hide Can, Do, IsPrivate;
    var steps :| Runs(s, steps) && t == After(s, steps) && forall k :: 0 <= k < |steps| ==> IsPrivate(steps[k]);
    RunThen(s, steps, step);
  }

  lemma Lifted(config: Config, e: Engine, sid: nat, t: Session) returns (tally: Tally)
    requires Reached(config, e) && Indexed(e) && sid < |e.all| && LeadsTo(e.all[sid], t)
    ensures Reached(config, e.(all := e.all[sid := t], tally := tally))
  {
    hide Reached, Can, Do, IsPrivate;
    var steps :| Runs(e.all[sid], steps) && t == After(e.all[sid], steps)
      && forall k :: 0 <= k < |steps| ==> IsPrivate(steps[k]);
    tally := SessionRunLifts(config, e, sid, steps);
  }

  /** One session for the operator, one for the grid, and a budget that is not what decides. */
  const SMALL_PLANE := Config(2, 1, 2, 1)

  /** An operator opens a device, a tile joins, the operator leaves: the session goes on as the tile's. */
  lemma OperatorLeavesATile() returns (s: Session)
    ensures LeadsTo(NewSession(Operator), s)
    ensures s.mem.operatorViewers == 0 && s.mem.viewers == map[2 := Ambient] && !s.mem.closed
  {
    hide LeadsTo;
    var s0 := NewSession(Operator);
    Here(s0);
    Then(s0, s0, Attach(Operator));
    var s1 := Do(s0, Attach(Operator));
    Then(s0, s1, AskProfile(1));
    var s2 := Do(s1, AskProfile(1));
    Then(s0, s2, Attach(Ambient));
    var s3 := Do(s2, Attach(Ambient));
    assert s3.mem.viewers == map[1 := Operator, 2 := Ambient];
    Then(s0, s3, Step.GiveBack(1));
    var s4 := Do(s3, Step.GiveBack(1));
    Then(s0, s4, Step.Detach(1));
    s := Do(s4, Step.Detach(1));
    assert s.mem.viewers == map[2 := Ambient];
  }

  lemma TileAttaches() returns (s: Session)
    ensures LeadsTo(NewSession(Ambient), s)
    ensures s.mem.operatorViewers == 0 && s.mem.viewers == map[1 := Ambient]
  {
    hide LeadsTo;
    Here(NewSession(Ambient));
    Then(NewSession(Ambient), NewSession(Ambient), Attach(Ambient));
    s := Do(NewSession(Ambient), Attach(Ambient));
  }

  /**
   The reserve is not kept once an operator leaves a session that goes on: here every session is a tile's, one more
   than the allowance, and the operator is refused.
   */
  lemma ReserveIsNotKept()
    ensures Consistent(SMALL_PLANE) && TileAllowance(SMALL_PLANE) == 1
    ensures exists e :: Reached(SMALL_PLANE, e) && Indexed(e) && |e.sessions| == SMALL_PLANE.max && Watched(e) == {}
              && forall d :: d in e.sessions ==> Ambient in e.all[e.sessions[d]].mem.viewers.Values
  {
    var e0 := SmallPlaneStarts();
    var tile := TileAttaches();
    var left := OperatorLeavesATile();
    hide Reached, LeadsTo, NewSession;
    var tally1 := Lifted(SMALL_PLANE, e0, 0, tile);
    var e1 := e0.(all := e0.all[0 := tile], tally := tally1);
    var tally2 := Lifted(SMALL_PLANE, e1, 1, left);
    OnlyTilesWatch(e1.(all := e1.all[1 := left], tally := tally2), tile, left);
  }

  lemma OnlyTilesWatch(e: Engine, tile: Session, left: Session)
    requires e.sessions == map[0 := 0, 1 := 1] && e.devices == [0, 1] && e.all == [tile, left]
    requires tile.mem.operatorViewers == 0 && tile.mem.viewers == map[1 := Ambient]
    requires left.mem.operatorViewers == 0 && left.mem.viewers == map[2 := Ambient]
    ensures Indexed(e) && |e.sessions| == 2 && Watched(e) == {}
    ensures forall d :: d in e.sessions ==> Ambient in e.all[e.sessions[d]].mem.viewers.Values
  {
    assert e.sessions.Keys == {0, 1};
    assert tile.mem.viewers[1] == Ambient && left.mem.viewers[2] == Ambient;
  }

  lemma SmallPlaneStarts() returns (e: Engine)
    ensures Reached(SMALL_PLANE, e) && e.all == [NewSession(Ambient), NewSession(Operator)]
    ensures e.sessions == map[0 := 0, 1 := 1] && e.devices == [0, 1]
  {
    hide Reached, NewSession;
    var e0 := NewEngine(SMALL_PLANE);
    NewIsReached(SMALL_PLANE);
    OneMore(SMALL_PLANE, e0, Start(0, Ambient));
    var e1 := DoEngine(e0, Start(0, Ambient));
    OneMore(SMALL_PLANE, e1, Decide);
    var e2 := DoEngine(e1, Decide);
    assert e2.sessions == map[0 := 0];
    OneMore(SMALL_PLANE, e2, Start(1, Operator));
    e := DoEngine(e2, Start(1, Operator));
  }

  /** A device opens, reports no screen, and the worker's end comes as far as its place in the map. */
  lemma NoScreenEnds() returns (s: Session)
    ensures LeadsTo(NewSession(Operator), s) && s.end == Forgetting && s.open != {}
  {
    hide LeadsTo;
    var s0 := NewSession(Operator);
    Here(s0);
    Then(s0, s0, LoadToPick);
    var s1 := Do(s0, LoadToPick);
    Then(s0, s1, BeginDial);
    var s2 := Do(s1, BeginDial);
    Then(s0, s2, DialOpens);
    var s3 := Do(s2, DialOpens);
    Then(s0, s3, SizeFails);
    s := Do(s3, SizeFails);
    assert s.open == {0} && s.end == Live && s.worker.pc == Ending && s.mem.viewers == map[];
    s := EndAsFarAsTheMap(s0, s);
  }

  lemma EndAsFarAsTheMap(s0: Session, s: Session) returns (t: Session)
    requires LeadsTo(s0, s) && s.open != {} && s.end == Live && s.worker.pc == Ending && s.mem.viewers == map[]
    ensures LeadsTo(s0, t) && t.end == Forgetting && t.open != {}
  {
    hide LeadsTo;
    var end := BeginEnd(ByWorker, NoStreamableScreen);
    Then(s0, s, end);
    var s1 := Do(s, end);
    assert s1.end == Evicting({});
    Then(s0, s1, Evicted);
    var s2 := Do(s1, Evicted);
    Then(s0, s2, ContextCancelled);
    t := Do(s2, ContextCancelled);
  }

  /** A session its end has forgotten, while its worker still holds the device's stream. */
  lemma ForgottenWithStream(config: Config) returns (e: Engine)
    requires Consistent(config)
    ensures Reached(config, e) && e.config == config && e.sessions == map[] && e.lock == Free && !e.stopped && e.stopping == {}
    ensures |e.all| == |e.devices| == 1 && e.devices == [0] && e.all[0].open != {} && e.running == 1
  {
    NewIsReached(config);
    var e0 := NewEngine(config);
    OneMore(config, e0, Start(0, Operator));
    var e1 := DoEngine(e0, Start(0, Operator));
    var s := NoScreenEnds();
    var tally := Lifted(config, e1, 0, s);
    hide Reached, LeadsTo, NewSession;
    var e2 := e1.(all := [s], tally := tally);
    assert e1.all[0 := s] == [s];
    e := Forget(config, e2);
  }

  lemma Forget(config: Config, e: Engine) returns (f: Engine)
    requires Reached(config, e) && |e.all| == 1 && e.devices == [0] && e.sessions == map[0 := 0] && e.lock == Free
    requires e.all[0].end == Forgetting
    ensures Reached(config, f) && f.sessions == map[] && |f.all| == 1 && f.all[0].open == e.all[0].open
    ensures f.config == e.config && f.devices == e.devices && f.lock == e.lock && f.stopped == e.stopped
    ensures f.stopping == e.stopping && f.running == e.running
  {
    hide Reached;
    var forget := OfSession(0, Forgotten);
    OneMore(config, e, forget);
    f := DoEngine(e, forget);
    assert f.sessions == map[];
  }

  /**
   A stop's snapshot misses a session its end has already forgotten: nothing is outstanding in it, yet the wait that
   follows has a worker to wait for, with its device's stream still open.
   */
  lemma StopWaitsForTheForgotten(config: Config)
    requires Consistent(config)
    ensures exists e :: Reached(config, e) && e.stopped && e.stopping == {} && e.running == 1
              && |e.all| == 1 && e.all[0].open != {}
  {
    var e := ForgottenWithStream(config);
    hide Reached;
    OneMore(config, e, Stop);
    assert DoEngine(e, Stop).stopping == {};
  }

  /**
   One open stream is a session's bound and not a device's: the next viewer of a forgotten session's device starts a
   session that dials while the stream of the one before it is still open.
   */
  lemma TwoStreamsOfOneDevice(config: Config)
    requires Consistent(config)
    ensures exists e :: Reached(config, e) && |e.all| == |e.devices| == 2 && e.devices[0] == e.devices[1]
              && e.all[0].open != {} && e.all[1].open != {}
  {
    var e0 := ForgottenWithStream(config);
    var s := OpensStream();
    hide Reached, LeadsTo, NewSession;
    OneMore(config, e0, Start(0, Operator));
    var e1 := DoEngine(e0, Start(0, Operator));
    var tally := Lifted(config, e1, 1, s);
    var e2 := e1.(all := e1.all[1 := s], tally := tally);
    assert e2.all[0] == e0.all[0] && e2.all[1] == s;
  }

  lemma OpensStream() returns (s: Session)
    ensures LeadsTo(NewSession(Operator), s) && s.open != {}
  {
    hide LeadsTo;
    var s0 := NewSession(Operator);
    Here(s0);
    Then(s0, s0, LoadToPick);
    var s1 := Do(s0, LoadToPick);
    Then(s0, s1, BeginDial);
    var s2 := Do(s1, BeginDial);
    Then(s0, s2, DialOpens);
    s := Do(s2, DialOpens);
    assert 0 in s.open;
  }
}
