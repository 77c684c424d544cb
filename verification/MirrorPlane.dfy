/** The engine object: its map of sessions, and a start decided in one piece, with no session's count moving meanwhile. */
module MirrorPlane {
  import opened MirrorCapacity
  import opened MirrorMemory
  import opened Wrappers

  type Device = nat

  class MirrorEngine {
    const config: Config
    var sessions: map<Device, MirrorSession>
    var stopped: bool

    ghost predicate Valid()
      reads this
    {
      |sessions| <= config.max
    }

    /** The devices whose sessions no operator is watching. */
    ghost function Unwatched(among: set<Device>): set<Device>
      requires among <= sessions.Keys
      reads this, set d | d in sessions :: sessions[d]
    {
      set d | d in among && sessions[d].operatorViewers == 0
    }

    constructor (config: Config)
      ensures Valid() && sessions == map[] && !stopped && this.config == config
    {
      this.config := config;
      sessions, stopped := map[], false;
    }

    method CapacityRefusal(purpose: Purpose) returns (refusal: Refusal)
      ensures refusal == Verdict(config, purpose == Ambient, |sessions|, |Unwatched(sessions.Keys)|)
    {
      if |sessions| >= config.max {
        return PlaneFull;
      }
      if purpose != Ambient {
        return Admitted;
      }
      var share := TileAllowance(config);
      var held := 0;
      var rest := sessions.Keys;
      while rest != {}
        invariant rest <= sessions.Keys
        invariant held == |Unwatched(sessions.Keys - rest)|
        decreases |rest|
      {
        var d :| d in rest;
        ghost var before := Unwatched(sessions.Keys - rest);
        rest := rest - {d};
        assert sessions.Keys - rest == (sessions.Keys - rest - {d}) + {d};
        if sessions[d].operatorViewers == 0 {
          held := held + 1;
          assert Unwatched(sessions.Keys - rest) == before + {d};
        } else {
          assert Unwatched(sessions.Keys - rest) == before;
        }
      }
      assert sessions.Keys - rest == sessions.Keys;
      return if held >= share then TileShareSpent(share) else Admitted;
    }

    /** The session to attach to: the device's own, or a new one if the capacity has a place for this purpose. */
    method SessionFor(device: Device, purpose: Purpose) returns (session: MirrorSession?, refusal: Refusal)
      requires Valid() && !stopped
      modifies this`sessions
      ensures Valid()
      ensures device in old(sessions) ==> session == old(sessions)[device] && sessions == old(sessions)
      ensures device !in old(sessions) ==>
                && refusal == old(Verdict(config, purpose == Ambient, |sessions|, |Unwatched(sessions.Keys)|))
                && (refusal != Admitted ==> session == null && sessions == old(sessions))
                && (refusal == Admitted ==>
                      session != null && fresh(session) && session.State() == NewMemory(purpose)
                      && sessions == old(sessions)[device := session])
    {
      session, refusal := null, Admitted;
      if device in sessions {
        session := sessions[device];
        return;
      }
      refusal := CapacityRefusal(purpose);
      if refusal == Admitted {
        session := new MirrorSession(purpose);
        sessions := sessions[device := session];
      }
    }

    /**
     A viewer starts: nothing once the engine is stopped; otherwise it attaches to the device's session, or to a new one
     that the capacity admits. A session that has ended is still the device's until it is forgotten, and takes nobody.
     */
    method StartViewer(device: Device, purpose: Purpose)
      returns (session: MirrorSession?, viewer: Option<nat>, refusal: Refusal)
      requires Valid()
      modifies this`sessions, sessions.Values
      ensures Valid() && (session == null <==> viewer.None?)
      ensures old(stopped) ==> session == null && sessions == old(sessions)
      ensures !old(stopped) && device in old(sessions) ==>
                var mine := old(sessions)[device];
                && sessions == old(sessions) && session == (if old(mine.closed) then null else mine)
                && mine.State() == (if old(mine.closed) then old(mine.State()) else Attached(old(mine.State()), purpose))
                && (viewer.Some? ==> viewer == Some(mine.nextID))
      ensures !old(stopped) && device !in old(sessions) ==>
                && refusal == old(Verdict(config, purpose == Ambient, |sessions|, |Unwatched(sessions.Keys)|))
                && (refusal != Admitted ==> session == null && sessions == old(sessions))
                && (refusal == Admitted ==>
                      && session != null && fresh(session) && viewer == Some(1)
                      && session.State() == Attached(NewMemory(purpose), purpose)
                      && sessions == old(sessions)[device := session])
      ensures forall other :: other in old(sessions).Values && other != session ==> other.State() == old(other.State())
    {
      session, viewer, refusal := null, None, Admitted;
      if stopped {
        return;
      }
      session, refusal := SessionFor(device, purpose);
      if session != null {
        viewer := session.Attach(purpose);
        if viewer == None {
          session := null;
        }
      }
    }

    /** Removes a session that has ended, unless the device has another by now. */
    method Forget(device: Device, session: MirrorSession)
      requires Valid()
      modifies this`sessions
      ensures Valid()
      ensures sessions ==
              if device in old(sessions) && old(sessions)[device] == session then old(sessions) - {device} else old(sessions)
    {
      if device in sessions && sessions[device] == session {
        sessions := sessions - {device};
      }
    }

    /** The part of a stop under the lock: no start is admitted any more, and these sessions are to be ended. */
    method BeginStop() returns (ending: set<MirrorSession>)
      modifies this`stopped
      ensures stopped && ending == sessions.Values
    {
      stopped := true;
      ending := sessions.Values;
    }
  }
}
