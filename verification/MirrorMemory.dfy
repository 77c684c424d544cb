/**
 One device's live session: the memory its lock protects, one function per critical section, and the session
 object whose methods are those sections.
 */
module MirrorMemory {
  import opened Wrappers

  /** What a viewer is: the operator's own frame, or a tile of the grid. */
  datatype Purpose = Operator | Ambient

  datatype EndClass =
    | ViewerDetached | EngineStopped | DeviceStreamEnded | TransportUnavailable
    | DeviceServerFailed | NoStreamableScreen | PushCancelled | DeviceServerLeftover

  /**
   The fields behind the session's lock, and the count of operator viewers beside it. A dial and the stream it
   opens have one number; cancelling dial n is calling the cancel function stored for it.
   */
  datatype Memory = Memory(
    opening: Purpose,
    viewers: map<nat, Purpose>,
    nextID: nat,
    operatorViewers: int,
    closed: bool,
    endClass: Option<EndClass>,
    idleArmed: bool,
    dialed: Option<Purpose>,
    dialCancel: Option<nat>,
    stream: Option<nat>)

  function NewMemory(opening: Purpose): Memory {
    Memory(opening, map[], 0, 0, false, None, false, None, None, None)
  }

  /** The encode bound a purpose needs; a session that has dialed nothing reads as the operator's. */
  function Rank(purpose: Option<Purpose>): nat { if purpose == Some(Ambient) then 0 else 1 }

  function Weight(purpose: Purpose): nat { if purpose == Operator then 1 else 0 }

  // ----- The critical sections

  function Attached(m: Memory, purpose: Purpose): Memory
    requires !m.closed
  {
    m.(idleArmed := false, nextID := m.nextID + 1, viewers := m.viewers[m.nextID + 1 := purpose],
       operatorViewers := m.operatorViewers + Weight(purpose))
  }

  function GivenBack(m: Memory, purpose: Purpose): Memory {
    m.(operatorViewers := m.operatorViewers - Weight(purpose))
  }

  function Detached(m: Memory, viewer: nat): Memory {
    var left := m.viewers - {viewer};
    m.(viewers := left, idleArmed := m.idleArmed || (left == map[] && !m.closed))
  }

  function Ended(m: Memory, class': EndClass): Memory {
    m.(closed := true, endClass := Some(class'), idleArmed := false, viewers := map[])
  }

  function DialBegun(m: Memory, purpose: Purpose, dial: nat): Memory {
    m.(dialed := Some(purpose), dialCancel := Some(dial))
  }

  function Published(m: Memory, dial: nat, purpose: Purpose): Memory {
    m.(stream := Some(dial), dialed := Some(purpose))
  }

  function Unpublished(m: Memory, dial: nat): Memory {
    if m.stream == Some(dial) then m.(stream := None) else m
  }

  /** The dial a viewer of this purpose has to cancel to get the profile it needs, if any. */
  function DialToCancel(m: Memory, purpose: Purpose): Option<nat> {
    if Rank(Some(purpose)) > Rank(m.dialed) && m.stream.Some? then m.dialCancel else None
  }

  /** What the stream has to be encoded for, given what a load of the count returned. */
  function Required(m: Memory, loaded: int): Purpose {
    if loaded > 0 || m.opening == Operator then Operator else Ambient
  }

  // ----- The object

  class MirrorSession {
    const opening: Purpose
    var viewers: map<nat, Purpose>
    var nextID: nat
    var operatorViewers: int
    var closed: bool
    var endClass: Option<EndClass>
    var idleArmed: bool
    var dialed: Option<Purpose>
    var dialCancel: Option<nat>
    var stream: Option<nat>

    ghost function State(): Memory
      reads this
    {
      Memory(opening, viewers, nextID, operatorViewers, closed, endClass, idleArmed, dialed, dialCancel, stream)
    }

    constructor (opening: Purpose)
      ensures State() == NewMemory(opening)
    {
      this.opening := opening;
      viewers, nextID, operatorViewers, closed, endClass := map[], 0, 0, false, None;
      idleArmed, dialed, dialCancel, stream := false, None, None, None;
    }

    /** Records a viewer, unless the session has ended. */
    method Attach(purpose: Purpose) returns (viewer: Option<nat>)
      modifies this`viewers, this`nextID, this`operatorViewers, this`idleArmed
      ensures viewer.None? == old(closed)
      ensures State() == if old(closed) then old(State()) else Attached(old(State()), purpose)
      ensures viewer.Some? ==> viewer == Some(nextID) && nextID in viewers
    {
      if closed {
        return None;
      }
      idleArmed := false;
      nextID := nextID + 1;
      viewers := viewers[nextID := purpose];
      if purpose == Operator {
        operatorViewers := operatorViewers + 1;
      }
      return Some(nextID);
    }

    /** The atomic decrement of a viewer that closes. */
    method GiveBack(purpose: Purpose)
      modifies this`operatorViewers
      ensures State() == GivenBack(old(State()), purpose)
    {
      if purpose == Operator {
        operatorViewers := operatorViewers - 1;
      }
    }

    /** Removes a viewer and arms the idle timer when it was the last. */
    method Detach(viewer: nat)
      modifies this`viewers, this`idleArmed
      ensures State() == Detached(old(State()), viewer)
    {
      viewers := viewers - {viewer};
      if viewers == map[] && !closed {
        idleArmed := true;
      }
    }

    /** The locked part of an end: who was watching is handed back so each can be closed. */
    method End(class': EndClass) returns (watching: set<nat>)
      modifies this`closed, this`endClass, this`idleArmed, this`viewers
      ensures State() == Ended(old(State()), class') && watching == old(viewers).Keys
    {
      closed, endClass, idleArmed := true, Some(class'), false;
      watching := viewers.Keys;
      viewers := map[];
    }

    method BeginDial(purpose: Purpose, dial: nat)
      modifies this`dialed, this`dialCancel
      ensures State() == DialBegun(old(State()), purpose, dial)
    {
      dialed, dialCancel := Some(purpose), Some(dial);
    }

    method PublishStream(dial: nat, purpose: Purpose)
      modifies this`stream, this`dialed
      ensures State() == Published(old(State()), dial, purpose)
    {
      stream, dialed := Some(dial), Some(purpose);
    }

    method ReleaseStream(dial: nat)
      modifies this`stream
      ensures State() == Unpublished(old(State()), dial)
    {
      if stream == Some(dial) {
        stream := None;
      }
    }

    /** The read of what is carried; a viewer then cancels the dial this names, outside the lock. */
    method RequestProfile(purpose: Purpose) returns (cancel: Option<nat>)
      ensures cancel == DialToCancel(State(), purpose)
    {
      var carried := stream;
      var needs := Rank(Some(purpose)) > Rank(dialed);
      if !needs || carried == None || dialCancel == None {
        return None;
      }
      return dialCancel;
    }

    method RequiredPurpose() returns (purpose: Purpose)
      ensures purpose == Required(State(), operatorViewers)
    {
      if operatorViewers > 0 {
        return Operator;
      }
      return if opening == Operator then Operator else Ambient;
    }

    /** Whether what is carried is the grid's while the operator's is needed: nothing else calls for another stream. */
    method StrongerStreamRequired() returns (stronger: bool)
      ensures stronger <==> dialed == Some(Ambient) && (opening == Operator || operatorViewers > 0)
    {
      var required := RequiredPurpose();
      stronger := Rank(Some(required)) > Rank(dialed);
    }
  }
}
