/**
 What a session offers its viewers: the parameter sets it tracks, the key frame it caches, and each viewer's bounded
 queue.
 */
module MirrorFeed {
  import opened AnnexB
  import opened AnnexBLaws
  import opened Bytes
  import opened Wrappers

  /** One packet of the device's stream: configuration, or a picture that may be a key frame. */
  datatype Frame = Frame(data: seq<byte>, config: bool, key: bool, pts: uint64)

  datatype Event =
    | Opened(width: int, height: int)
    | Redeclared(width: int, height: int)
    | Packet(frame: Frame)

  datatype Feed = Feed(sets: seq<byte>, lastIDR: seq<byte>, lastPTS: uint64, width: int, height: int)

  const NEW_FEED := Feed([], [], 0, 0, 0)

  function Tracked(feed: Feed, data: seq<byte>): Feed {
    if CarriesSets(data) then feed.(sets := Sets(data)) else feed
  }

  function Offered(feed: Feed, frame: Frame): Frame {
    if frame.key && feed.sets != [] && !CarriesSets(frame.data) then frame.(data := Attach(feed.sets, frame.data)) else frame
  }

  function Published(feed: Feed, frame: Frame): Feed {
    if frame.config || !frame.key then Tracked(feed, frame.data)
    else Tracked(feed, frame.data).(lastIDR := Offered(feed, frame).data, lastPTS := frame.pts)
  }

  /** A re-declaration at no size is not one. */
  predicate Resets(event: Event) {
    event.Opened? || (event.Redeclared? && event.width > 0 && event.height > 0)
  }

  function Heard(feed: Feed, event: Event): Feed {
    if Resets(event) then Feed([], [], 0, event.width, event.height)
    else if event.Packet? then Published(feed, event.frame)
    else feed
  }

  function After(events: seq<Event>): Feed {
    if events == [] then NEW_FEED else Heard(After(events[..|events| - 1]), events[|events| - 1])
  }

  lemma HeardNext(events: seq<Event>, e: Event)
    ensures After(events + [e]) == Heard(After(events), e)
  {
    assert (events + [e])[..|events|] == events;
    hide Heard;
  }

  // ----- Decodability

  /** The present encoder has sent both sets in one unit. */
  predicate Supplied(events: seq<Event>) {
    events != [] &&
    var last := events[|events| - 1];
    !Resets(last) && ((last.Packet? && CarriesSets(last.frame.data)) || Supplied(events[..|events| - 1]))
  }

  /** What is tracked is exactly a supplied pair of sets: the newest one. */
  lemma {:induction false} TracksWhatIsSupplied(events: seq<Event>)
    ensures After(events).sets != [] <==> Supplied(events)
    ensures Supplied(events) ==> exists u :: CarriesSets(u) && After(events).sets == Sets(u)
  {
    hide CarriesSets, Sets, Attach;
    if events != [] {
      TracksWhatIsSupplied(events[..|events| - 1]);
      var last := events[|events| - 1];
      if last.Packet? && CarriesSets(last.frame.data) {
        CarriedIsSomething(last.frame.data);
      }
    }
  }

  lemma CarriedIsSomething(u: seq<byte>)
    requires CarriesSets(u)
    ensures Sets(u) != []
  {
  }

  /** The event's key frame, as it is offered. */
  predicate IsKey(event: Event) { event.Packet? && event.frame.key && !event.frame.config }

  /** One key frame is offered decodable exactly when this encoder has supplied both sets by then. */
  lemma KeyFrameDecodable(events: seq<Event>, event: Event)
    requires IsKey(event)
    ensures CarriesSets(Offered(After(events), event.frame).data) <==> Supplied(events + [event])
  {
    var feed := After(events);
    TracksWhatIsSupplied(events);
    assert (events + [event])[..|events|] == events;
    if Supplied(events) && !CarriesSets(event.frame.data) {
      var u :| CarriesSets(u) && feed.sets == Sets(u);
      AttachedAreCarried(u, event.frame.data);
      if Sets(u) <= event.frame.data {
        PrefixGuardUnreachable(u, event.frame.data);
      }
    }
    hide CarriesSets, Sets, After;
  }

  /** Every key frame arrives with both sets of its encoder already sent, or sends them itself. */
  ghost predicate SuppliesInTime(events: seq<Event>) {
    forall k :: 0 <= k < |events| && IsKey(events[k]) ==> Supplied(events[..k + 1])
  }

  ghost predicate EveryKeyDecodable(events: seq<Event>) {
    forall k :: 0 <= k < |events| && IsKey(events[k]) ==>
      CarriesSets(Offered(After(events[..k]), events[k].frame).data)
  }

  /** Over a whole run, every offered key frame carries both sets exactly when every encoder supplies them in time. */
  lemma RunDecodable(events: seq<Event>)
    ensures EveryKeyDecodable(events) <==> SuppliesInTime(events)
  {
    hide CarriesSets, Offered, After, Supplied;
    forall k | 0 <= k < |events| && IsKey(events[k])
      ensures CarriesSets(Offered(After(events[..k]), events[k].frame).data) <==> Supplied(events[..k + 1])
    {
      KeyFrameDecodable(events[..k], events[k]);
      assert events[..k] + [events[k]] == events[..k + 1];
    }
  }

  /** And then a late viewer's primer is nothing or decodable: a cached key frame carries both sets too. */
  lemma {:induction false} CachedIsDecodable(events: seq<Event>)
    requires SuppliesInTime(events)
    ensures After(events).lastIDR != [] ==> CarriesSets(After(events).lastIDR)
  {
    if events != [] {
      var front, last := events[..|events| - 1], events[|events| - 1];
      forall k | 0 <= k < |front| && IsKey(front[k]) ensures Supplied(front[..k + 1]) {
        assert front[..k + 1] == events[..k + 1];
      }
      CachedIsDecodable(front);
      if IsKey(last) {
        assert events[..|events|] == events == front + [last];
        KeyFrameDecodable(front, last);
      }
      hide CarriesSets, Sets, Attach, Supplied;
    }
  }

  /** Offering a key frame never changes its picture, whatever is tracked. */
  lemma OfferKeepsPicture(events: seq<Event>, frame: Frame)
    requires CodeLen(frame.data, 0) > 0
    ensures PictureNals(Nals(Offered(After(events), frame).data)) == PictureNals(Nals(frame.data))
    ensures Offered(After(events), frame).(data := frame.data) == frame
  {
    TracksWhatIsSupplied(events);
    if After(events).sets != [] {
      var u :| CarriesSets(u) && After(events).sets == Sets(u);
      ReattachKeepsMeaning(u, frame.data);
    }
    hide CarriesSets, Sets, After, PictureNals, Nals, Attach;
  }

  // ----- What is kept, read off the events alone

  /** Another encoder begins: a stream opens, or one is declared again at a size. */
  predicate Begins(e: Event) { e.Opened? || (e.Redeclared? && 0 < e.width && 0 < e.height) }

  /** The packet at k carries both sets, and no later event begins an encoder or carries sets. */
  ghost predicate NewestSets(events: seq<Event>, k: nat) {
    && k < |events| && events[k].Packet? && CarriesSets(events[k].frame.data)
    && forall j :: k < j < |events| ==> !Begins(events[j]) && !(events[j].Packet? && CarriesSets(events[j].frame.data))
  }

  /** The packet at k is a key frame, and no later event begins an encoder or is one. */
  ghost predicate NewestKey(events: seq<Event>, k: nat) {
    && k < |events| && events[k].Packet? && events[k].frame.key && !events[k].frame.config
    && forall j :: k < j < |events| ==>
         !Begins(events[j]) && !(events[j].Packet? && events[j].frame.key && !events[j].frame.config)
  }

  /** What a key frame that arrives after these events is offered as: as it is, or with the newest sets in front. */
  ghost predicate OfferedAs(events: seq<Event>, data: seq<byte>, out: seq<byte>) {
    if CarriesSets(data) || forall k: nat :: !NewestSets(events, k) then out == data
    else exists k: nat :: NewestSets(events, k) && out == Attach(Sets(events[k].frame.data), data)
  }

  lemma NewestSetsNext(events: seq<Event>, e: Event, k: nat)
    ensures NewestSets(events + [e], k) <==>
            if k == |events| then e.Packet? && CarriesSets(e.frame.data)
            else NewestSets(events, k) && !Begins(e) && !(e.Packet? && CarriesSets(e.frame.data))
  {
    hide CarriesSets;
    var all := events + [e];
    assert forall j :: 0 <= j < |events| ==> all[j] == events[j];
    assert all[|events|] == e;
  }

  lemma NewestKeyNext(events: seq<Event>, e: Event, k: nat)
    ensures NewestKey(events + [e], k) <==>
            if k == |events| then e.Packet? && e.frame.key && !e.frame.config
            else NewestKey(events, k) && !Begins(e) && !(e.Packet? && e.frame.key && !e.frame.config)
  {
    var all := events + [e];
    assert forall j :: 0 <= j < |events| ==> all[j] == events[j];
    assert all[|events|] == e;
  }

  lemma OneNewestKey(events: seq<Event>, k: nat, l: nat)
    requires NewestKey(events, k) && NewestKey(events, l)
    ensures k == l
  {
  }

  /** The tracked sets are those of the newest packet of the present encoder that carries both, or nothing. */
  lemma {:induction false} SetsAreTheNewest(events: seq<Event>)
    ensures forall k: nat :: NewestSets(events, k) ==> After(events).sets == Sets(events[k].frame.data)
    ensures (forall k: nat :: !NewestSets(events, k)) ==> After(events).sets == []
  {
    if events != [] {
      var front, last := events[..|events| - 1], events[|events| - 1];
      SetsAreTheNewest(front);
      assert events == front + [last];
      HeardNext(front, last);
      hide After, NewestSets, CarriesSets, Sets, Attach;
      forall k: nat ensures NewestSets(events, k) ==> After(events).sets == Sets(events[k].frame.data) {
        NewestSetsNext(front, last, k);
      }
      if forall k: nat :: !NewestSets(events, k) {
        NewestSetsNext(front, last, |front|);
        forall k: nat | NewestSets(front, k) ensures Begins(last) {
          NewestSetsNext(front, last, k);
        }
      }
    }
  }

  /** A frame is offered as it is, except that a key frame is offered with the newest sets when it does not carry both. */
  lemma OfferedExactly(events: seq<Event>, frame: Frame)
    ensures var out := Offered(After(events), frame);
            && out.config == frame.config && out.key == frame.key && out.pts == frame.pts
            && (if frame.key then OfferedAs(events, frame.data, out.data) else out.data == frame.data)
  {
    SetsAreTheNewest(events);
    hide After, NewestSets, CarriesSets, Attach;
    if k: nat :| NewestSets(events, k) {
      CarriedByNewest(events, k);
      CarriedIsSomething(events[k].frame.data);
    }
  }

  lemma CarriedByNewest(events: seq<Event>, k: nat)
    requires NewestSets(events, k)
    ensures k < |events| && events[k].Packet? && CarriesSets(events[k].frame.data)
  {
  }

  lemma KeyNext(events: seq<Event>, e: Event)
    ensures var was, now := After(events), After(events + [e]);
            if Begins(e) then now.lastIDR == [] && now.lastPTS == 0
            else if e.Packet? && e.frame.key && !e.frame.config then
              OfferedAs(events, e.frame.data, now.lastIDR) && now.lastPTS == e.frame.pts
            else now.lastIDR == was.lastIDR && now.lastPTS == was.lastPTS
  {
    HeardNext(events, e);
    if e.Packet? {
      OfferedExactly(events, e.frame);
    }
    hide After, OfferedAs, Offered, CarriesSets, Sets;
  }

  /** What is cached is the newest key frame of the present encoder, as it was offered, with its time; or nothing. */
  lemma {:induction false} KeyIsTheNewest(events: seq<Event>)
    ensures forall k: nat :: NewestKey(events, k) ==>
              && OfferedAs(events[..k], events[k].frame.data, After(events).lastIDR)
              && After(events).lastPTS == events[k].frame.pts
    ensures (forall k: nat :: !NewestKey(events, k)) ==> After(events).lastIDR == [] && After(events).lastPTS == 0
  {
    if events != [] {
      hide After, NewestKey, OfferedAs, Begins;
      var front, last := events[..|events| - 1], events[|events| - 1];
      KeyIsTheNewest(front);
      assert events == front + [last];
      KeyNext(front, last);
      forall k: nat | NewestKey(events, k)
        ensures k < |events| && events[k].Packet? && OfferedAs(events[..k], events[k].frame.data, After(events).lastIDR)
        ensures After(events).lastPTS == events[k].frame.pts
      {
        NewestKeyNext(front, last, k);
        NewestKeyIsOne(events, k);
        if k < |front| {
          assert events[..k] == front[..k];
        }
      }
      if forall k: nat :: !NewestKey(events, k) {
        NewestKeyNext(front, last, |front|);
        forall k: nat | NewestKey(front, k) ensures Begins(last) {
          NewestKeyNext(front, last, k);
          NewestKeyIsOne(front, k);
        }
      }
    }
  }

  lemma NewestKeyIsOne(events: seq<Event>, k: nat)
    requires NewestKey(events, k)
    ensures k < |events| && events[k].Packet? && events[k].frame.key && !events[k].frame.config
  {
  }

  lemma SizeNext(events: seq<Event>, e: Event)
    ensures After(events + [e]).width == if Begins(e) then e.width else After(events).width
    ensures After(events + [e]).height == if Begins(e) then e.height else After(events).height
  {
    HeardNext(events, e);
    hide After, CarriesSets, Sets, Attach;
  }

  /** No encoder has begun since the event at k, which began one. */
  ghost predicate NewestBegin(events: seq<Event>, k: nat) {
    k < |events| && Begins(events[k]) && forall j :: k < j < |events| ==> !Begins(events[j])
  }

  /** This is the size the newest beginning declares, or none before any. */
  ghost predicate IsSize(events: seq<Event>, width: int, height: int) {
    && (forall k: nat :: NewestBegin(events, k) ==> width == events[k].width && height == events[k].height)
    && ((forall k: nat :: !NewestBegin(events, k)) ==> width == 0 && height == 0)
  }

  lemma NewestBeginNext(events: seq<Event>, e: Event, k: nat)
    ensures NewestBegin(events + [e], k) <==> if k == |events| then Begins(e) else NewestBegin(events, k) && !Begins(e)
  {
    hide Begins;
    var all := events + [e];
    assert forall j :: 0 <= j < |events| ==> all[j] == events[j];
    assert all[|events|] == e;
  }

  lemma SizeStep(events: seq<Event>, e: Event, width: int, height: int)
    requires IsSize(events, width, height)
    ensures Begins(e) ==> IsSize(events + [e], e.width, e.height)
    ensures !Begins(e) ==> IsSize(events + [e], width, height)
  {
    hide NewestBegin, Begins;
    var all := events + [e];
    assert all[|events|] == e;
    forall k: nat | NewestBegin(all, k)
      ensures k < |all| && Begins(all[k]) && (k < |events| ==> NewestBegin(events, k) && !Begins(e) && all[k] == events[k])
    {
      NewestBeginIsOne(all, k);
      NewestBeginNext(events, e, k);
    }
    if !Begins(e) {
      forall k: nat | NewestBegin(events, k) ensures NewestBegin(all, k) {
        NewestBeginIsOne(events, k);
        NewestBeginNext(events, e, k);
      }
    } else {
      NewestBeginNext(events, e, |events|);
    }
  }

  lemma NewestBeginIsOne(events: seq<Event>, k: nat)
    requires NewestBegin(events, k)
    ensures k < |events| && Begins(events[k])
  {
  }

  /** The size is the one the present encoder was declared at, or none before any. */
  lemma {:induction false} SizeIsTheNewest(events: seq<Event>)
    ensures IsSize(events, After(events).width, After(events).height)
  {
    hide Begins, IsSize;
    if events == [] {
      NoSize();
    } else {
      hide After;
      var front, last := events[..|events| - 1], events[|events| - 1];
      SizeIsTheNewest(front);
      SizeNext(front, last);
      SizeStep(front, last, After(front).width, After(front).height);
      assert events == front + [last];
    }
  }

  lemma NoSize()
    ensures IsSize([], 0, 0)
  {
  }

  // ----- The viewer's queue

  class MirrorViewer {
    const depth: nat
    var queue: seq<Frame>
    var closed: bool
    var dropped: nat
    // Everything offered while open, and everything that left the queue, read or dropped, in order.
    ghost var offered: seq<Frame>
    ghost var removed: seq<Frame>
    ghost var read: nat

    ghost predicate Valid()
      reads this
    {
      0 < depth && |queue| <= depth && offered == removed + queue && |removed| == read + dropped
    }

    constructor (depth: nat)
      requires depth > 0
      ensures Valid() && fresh(this) && offered == [] && !closed && this.depth == depth
    {
      this.depth := depth;
      queue, closed, dropped := [], false, 0;
      offered, removed, read := [], [], 0;
    }

    /** The reader takes up to this many frames, each the oldest there is. */
    method Read(upTo: nat) returns (frames: seq<Frame>)
      requires Valid()
      modifies this`queue, this`removed, this`read
      ensures Valid() && frames == old(queue)[..if upTo < |old(queue)| then upTo else |old(queue)|]
      ensures queue == old(queue)[|frames|..] && read == old(read) + |frames| && removed == old(removed) + frames
    {
      frames := [];
      while |frames| < upTo && queue != []
        invariant Valid() && |frames| <= upTo && frames + queue == old(queue)
        invariant read == old(read) + |frames| && removed == old(removed) + frames
        decreases |queue|
      {
        frames := frames + [queue[0]];
        removed := removed + [queue[0]];
        read := read + 1;
        queue := queue[1..];
      }
      assert old(queue)[..|frames|] == frames && old(queue)[|frames|..] == queue;
    }

    /**
     Queues a frame, dropping the oldest when there is no room, while the reader takes frames between the attempts. The
     second attempt always finds room, so the queue is the newest of what was offered.
     */
    method Offer(frame: Frame, readsFirst: nat, readsThen: nat)
      requires Valid()
      modifies this`queue, this`dropped, this`offered, this`removed, this`read
      ensures Valid()
      ensures offered == if closed then old(offered) else old(offered) + [frame]
      ensures closed ==> queue == old(queue) && dropped == old(dropped) && read == old(read)
      ensures !closed ==> queue != [] && queue[|queue| - 1] == frame
      ensures dropped <= old(dropped) + if !closed && |old(queue)| == depth then 1 else 0
      ensures readsFirst == 0 && !closed && |old(queue)| == depth ==> dropped == old(dropped) + 1
      ensures readsFirst == readsThen == 0 && !closed ==>
                && read == old(read)
                && queue == (if |old(queue)| == depth then old(queue)[1..] else old(queue)) + [frame]
    {
      if closed {
        return;
      }
      if |queue| < depth {
        Queue(frame);
        return;
      }
      var _ := Read(readsFirst);
      DropOldest();
      var _ := Read(readsThen);
      assert |queue| < depth;
      if |queue| < depth {
        Queue(frame);
      }
    }

    method Queue(frame: Frame)
      requires Valid() && |queue| < depth
      modifies this`queue, this`offered
      ensures Valid() && queue == old(queue) + [frame] && offered == old(offered) + [frame]
    {
      queue := queue + [frame];
      offered := offered + [frame];
      assert offered == removed + queue;
    }

    /** The oldest frame is dropped, if the reader has left one. */
    method DropOldest()
      requires Valid()
      modifies this`queue, this`removed, this`dropped
      ensures Valid() && |queue| < depth
      ensures if old(queue) == [] then queue == [] && dropped == old(dropped)
              else queue == old(queue)[1..] && dropped == old(dropped) + 1
    {
      if queue != [] {
        removed := removed + [queue[0]];
        queue := queue[1..];
        dropped := dropped + 1;
        assert removed + queue == offered;
      }
    }

    method Close()
      requires Valid()
      modifies this`closed
      ensures Valid() && closed
    {
      closed := true;
    }
  }

  /** The newest of a list, as many as fit. */
  function Newest(frames: seq<Frame>, depth: nat): seq<Frame> {
    if |frames| <= depth then frames else frames[|frames| - depth..]
  }

  lemma NewestThen(frames: seq<Frame>, frame: Frame, depth: nat)
    requires depth > 0
    ensures |Newest(frames, depth)| <= depth
    ensures var was := Newest(frames, depth);
            Newest(frames + [frame], depth) == (if |was| == depth then was[1..] else was) + [frame]
  {
  }

  /** A viewer nobody reads holds exactly the newest frames offered, in order, and counts the rest as dropped. */
  method OfferAll(viewer: MirrorViewer, frames: seq<Frame>)
    requires viewer.Valid() && viewer.offered == [] && !viewer.closed && viewer.read == 0
    modifies viewer
    ensures viewer.Valid() && viewer.queue == Newest(frames, viewer.depth)
    ensures viewer.dropped == |frames| - |viewer.queue|
  {
    for i := 0 to |frames|
      invariant viewer.Valid() && !viewer.closed && viewer.read == 0
      invariant viewer.offered == frames[..i] && viewer.queue == Newest(frames[..i], viewer.depth)
    {
      hide Newest, MirrorViewer.Valid;
      OfferNext(viewer, frames[..i], frames[i]);
      assert frames[..i + 1] == frames[..i] + [frames[i]];
    }
    assert frames[..|frames|] == frames;
  }

  method OfferNext(viewer: MirrorViewer, ghost before: seq<Frame>, frame: Frame)
    requires viewer.Valid() && !viewer.closed && viewer.read == 0
    requires viewer.offered == before && viewer.queue == Newest(before, viewer.depth)
    modifies viewer`queue, viewer`dropped, viewer`offered, viewer`removed, viewer`read
    ensures viewer.Valid() && viewer.read == 0
    ensures viewer.offered == before + [frame] && viewer.queue == Newest(before + [frame], viewer.depth)
  {
    hide Newest;
    NewestThen(before, frame, viewer.depth);
    viewer.Offer(frame, 0, 0);
  }

  // ----- The session's side

  class MirrorFeed {
    var spsPPS: seq<byte>
    var lastIDR: seq<byte>
    var lastIDRPTS: uint64
    var width: int
    var height: int
    var viewers: set<MirrorViewer>
    ghost var events: seq<Event>

    ghost predicate Valid()
      reads this, viewers
    {
      && After(events) == Feed(spsPPS, lastIDR, lastIDRPTS, width, height)
      && forall v :: v in viewers ==> v.Valid()
    }

    constructor ()
      ensures Valid() && events == [] && viewers == {}
    {
      spsPPS, lastIDR, lastIDRPTS, width, height := [], [], 0, 0, 0;
      viewers := {};
      events := [];
    }

    method TrackParameterSets(data: seq<byte>)
      modifies this`spsPPS
      ensures spsPPS == if CarriesSets(data) then Sets(data) else old(spsPPS)
    {
      var sps, pps := ParameterSets(data);
      if sps == [] || pps == [] {
        return;
      }
      spsPPS := sps + pps;
    }

    /** A new stream is another encoder: what was cached of the one before it goes. */
    method PublishStream(width: int, height: int)
      requires Valid()
      modifies this`spsPPS, this`lastIDR, this`lastIDRPTS, this`width, this`height, this`events
      ensures Valid() && events == old(events) + [Opened(width, height)]
      ensures this.width == width && this.height == height && spsPPS == [] && lastIDR == [] && lastIDRPTS == 0
    {
      this.width, this.height := width, height;
      spsPPS, lastIDR, lastIDRPTS := [], [], 0;
      events := events + [Opened(width, height)];
      assert events[..|events| - 1] == old(events);
    }

    method Redeclare(width: int, height: int)
      requires Valid()
      modifies this`spsPPS, this`lastIDR, this`lastIDRPTS, this`width, this`height, this`events
      ensures Valid() && events == old(events) + [Redeclared(width, height)]
      ensures if width > 0 && height > 0 then
                this.width == width && this.height == height && spsPPS == [] && lastIDR == [] && lastIDRPTS == 0
              else
                && this.width == old(this.width) && this.height == old(this.height)
                && spsPPS == old(spsPPS) && lastIDR == old(lastIDR) && lastIDRPTS == old(lastIDRPTS)
    {
      events := events + [Redeclared(width, height)];
      assert events[..|events| - 1] == old(events);
      if width <= 0 || height <= 0 {
        return;
      }
      this.width, this.height := width, height;
      spsPPS, lastIDR, lastIDRPTS := [], [], 0;
    }

    /** Every open viewer is offered a picture with the sets a key frame needs; configuration is only tracked. */
    method Publish(frame: Frame)
      requires Valid()
      modifies this`spsPPS, this`lastIDR, this`lastIDRPTS, this`events, viewers
      ensures Valid() && events == old(events) + [Packet(frame)]
      ensures forall v :: v in viewers ==>
                && v.closed == old(v.closed)
                && v.offered == old(v.offered)
                     + if frame.config || v.closed then [] else [Offered(old(After(events)), frame)]
    {
      hide After, Offered;
      var out := Cache(frame);
      if frame.config {
        return;
      }
      OfferToAll(out);
    }

    /** What a packet does to the caches, and the picture to offer if it is one. */
    method Cache(frame: Frame) returns (out: Frame)
      requires After(events) == Feed(spsPPS, lastIDR, lastIDRPTS, width, height)
      modifies this`spsPPS, this`lastIDR, this`lastIDRPTS, this`events
      ensures After(events) == Feed(spsPPS, lastIDR, lastIDRPTS, width, height)
      ensures events == old(events) + [Packet(frame)]
      ensures !frame.config ==> out == Offered(old(After(events)), frame)
    {
      hide After, Spans, Attach, Sets;
      HeardNext(events, Packet(frame));
      out := frame;
      events := events + [Packet(frame)];
      if frame.config {
        TrackParameterSets(frame.data);
        return;
      }
      var params := spsPPS;
      var sps, pps := ParameterSets(frame.data);
      if frame.key && params != [] && !(sps != [] && pps != []) {
        out := frame.(data := Attach(params, frame.data));
      }
      TrackParameterSets(frame.data);
      if frame.key {
        lastIDR, lastIDRPTS := out.data, frame.pts;
      }
    }

    method OfferToAll(out: Frame)
      requires forall v :: v in viewers ==> v.Valid()
      modifies viewers
      ensures forall v :: v in viewers ==>
                v.Valid() && v.closed == old(v.closed) && v.offered == old(v.offered) + if v.closed then [] else [out]
    {
      hide After, MirrorViewer.Valid;
      var rest := viewers;
      while rest != {}
        invariant rest <= viewers
        invariant forall v :: v in viewers ==> v.Valid() && v.closed == old(v.closed)
        invariant forall v :: v in rest ==> v.offered == old(v.offered)
        invariant forall v :: v in viewers - rest ==> v.offered == old(v.offered) + if v.closed then [] else [out]
        decreases |rest|
      {
        var v :| v in rest;
        v.Offer(out, 0, 0);
        rest := rest - {v};
      }
    }

    /**
     What a viewer that attaches late is primed with, once a key frame has been seen: that key frame, which carries both
     sets when every encoder has supplied them in time, and the sets themselves, empty exactly until they are supplied.
     */
    method Keyframe() returns (primer: Option<(seq<byte>, seq<byte>)>)
      requires Valid()
      ensures (forall k: nat :: !NewestKey(events, k)) ==> primer.None?
      ensures forall k: nat :: NewestKey(events, k) ==>
                exists out :: OfferedAs(events[..k], events[k].frame.data, out) && (primer.None? <==> out == [])
                              && (primer.Some? ==> primer.value.0 == out)
      ensures primer.Some? ==>
                if exists k: nat :: NewestSets(events, k) then exists k: nat :: NewestSets(events, k) && primer.value.1 == Sets(events[k].frame.data)
                else primer.value.1 == []
      ensures SuppliesInTime(events) && primer.Some? ==> CarriesSets(primer.value.0)
      ensures primer.Some? ==> (primer.value.1 != [] <==> Supplied(events))
    {
      if SuppliesInTime(events) {
        CachedIsDecodable(events);
      }
      TracksWhatIsSupplied(events);
      KeyIsTheNewest(events);
      SetsAreTheNewest(events);
      hide After, NewestKey, NewestSets, OfferedAs, Supplied, SuppliesInTime, CarriesSets;
      return if lastIDR == [] then None else Some((lastIDR, spsPPS));
    }
  }
}
