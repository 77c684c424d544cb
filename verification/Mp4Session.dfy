/**
 Whole runs of the writer. What a player reads back from the bytes of any run is compared with a reference that
 knows nothing of bytes, declarations or boxes: the current size, the latest sets, and a timeline.
 */
module Mp4Session {
  import opened Bytes
  import opened Wrappers
  import opened AnnexB
  import opened Mp4Boxes
  import opened Mp4Sample
  import opened Mp4Reader
  import opened Mp4Laws
  import opened Mp4Writer

  datatype Call = SetSize(width: int, height: int) | Unit(unit: seq<byte>, key: bool, pts: uint64)

  /** The state and the bytes after one call, a refused call changing nothing. */
  function After(s: Stream, call: Call): (Stream, seq<byte>) {
    match call
    case SetSize(w, h) => (if w > 0 && h > 0 then s.(width := w, height := h) else s, [])
    case Unit(unit, key, pts) =>
      match Write(s, unit, key, pts)
      case Refused(_) => (s, [])
      case Written(out, picture, after) => (after, out + picture)
  }

  function Output(s: Stream, calls: seq<Call>): seq<byte>
    decreases |calls|
  {
    if calls == [] then [] else After(s, calls[0]).1 + Output(After(s, calls[0]).0, calls[1..])
  }

  function Final(s: Stream, calls: seq<Call>): Stream
    decreases |calls|
  {
    if calls == [] then s else Final(After(s, calls[0]).0, calls[1..])
  }

  // ----- The reference

  /** The size pictures arrive at, the latest sets carried by an accepted unit, and the timeline. */
  datatype Reference = Reference(
    width: nat, height: nat, sets: seq<byte>, last: Option<uint64>, duration: uint32, time: uint64, sequence: uint32)

  function LatestSets(r: Reference, unit: seq<byte>): seq<byte> {
    if CarriesSets(unit) then Sets(unit) else r.sets
  }

  /** A unit becomes a picture when it holds one, sets that can be declared are known, and a stream starts at a key frame. */
  predicate Accepts(r: Reference, unit: seq<byte>, key: bool) {
    && PictureNals(Nals(unit)) != []
    && (r.sets == [] ==> key)
    && LatestSets(r, unit) != []
    && AvcC(LatestSets(r, unit)).Record?
  }

  function NextDuration(r: Reference, pts: uint64): uint32 {
    if r.last.Some? && pts > r.last.value then
      if pts - r.last.value > TWO_32 - 1 then TWO_32 - 1 else pts - r.last.value
    else r.duration
  }

  function Advance(r: Reference, unit: seq<byte>, pts: uint64): Reference {
    r.(sets := LatestSets(r, unit), last := Some(pts), duration := NextDuration(r, pts),
       time := (r.time + NextDuration(r, pts)) % TWO_64, sequence := (r.sequence + 1) % TWO_32)
  }

  function PictureOf(r: Reference, unit: seq<byte>, key: bool, pts: uint64): Picture
    requires Accepts(r, unit, key)
  {
    Picture(Config(r.width % TWO_16, r.height % TWO_16, AvcC(LatestSets(r, unit)).bytes),
            (r.sequence + 1) % TWO_32, key, r.time, NextDuration(r, pts), PictureNals(Nals(unit)))
  }

  /** The pictures a run of calls shows. */
  function Meaning(r: Reference, calls: seq<Call>): seq<Picture>
    decreases |calls|
  {
    if calls == [] then []
    else
      match calls[0]
      case SetSize(w, h) => Meaning(if w > 0 && h > 0 then r.(width := w, height := h) else r, calls[1..])
      case Unit(unit, key, pts) =>
        if Accepts(r, unit, key) then [PictureOf(r, unit, key, pts)] + Meaning(Advance(r, unit, pts), calls[1..])
        else Meaning(r, calls[1..])
  }

  /** What the reference knows of a writer's state. */
  function Abstract(s: Stream): Reference {
    Reference(s.width, s.height, s.params, if s.seenPTS then Some(s.lastPTS) else None, s.lastDur, s.timeline, s.sequence)
  }

  // ----- What every call keeps

  /** The header is the writer's own declaration, and its boxes state their sizes. */
  ghost predicate Consistent(s: Stream) {
    HeaderAgrees(s) && (s.started ==> |AvcC(s.params).bytes| <= MAX_RECORD)
  }

  /**
   The boxes a unit is printed in state their own sizes: its media data box and, if it brings sets of its own, the movie
   box that declares them.
   */
  predicate SizesStated(unit: seq<byte>) {
    && |Box(MDAT, Sample(unit))| < TWO_32
    && (AvcC(Sets(unit)).Record? ==> |AvcC(Sets(unit)).bytes| <= MAX_RECORD)
  }

  predicate Bounded(call: Call) { call.Unit? ==> SizesStated(call.unit) }

  /** The declaration a player has read last. */
  function InForce(s: Stream): Option<Config> {
    if s.started && AvcC(s.params).Record? then
      Some(Config(s.declaredWidth % TWO_16, s.declaredHeight % TWO_16, AvcC(s.params).bytes))
    else None
  }

  lemma {:induction false} SetIsShort(d: seq<byte>, spans: seq<Span>, typ: nat)
    requires forall k :: 0 <= k < |spans| ==> Inside(d, spans[k])
    ensures |LastSet(d, spans, typ)| <= |d|
  {
    if spans != [] {
      assert Inside(d, spans[|spans| - 1]);
      SetIsShort(d, spans[..|spans| - 1], typ);
    }
  }

  /** A gigabyte of a unit is far below where sizes stop being stated. */
  lemma SmallUnitsFit(unit: seq<byte>)
    requires |unit| <= 0x4000_0000
    ensures SizesStated(unit)
  {
    SampleBound(unit);
    SampleBound(Sets(unit));
    SetIsShort(unit, Spans(unit), NAL_SPS);
    SetIsShort(unit, Spans(unit), NAL_PPS);
    hide Sample, AvcC, LastSet;
  }

  /** A call is accepted by the writer exactly when the reference accepts it; what it declares is what is then in force. */
  lemma DeclarationInForce(s: Stream, unit: seq<byte>)
    requires Consistent(s) && SizesStated(unit)
    ensures var sets := LatestSets(Abstract(s), unit);
            var d := Redeclare(s, unit);
            && d.Declared? == (sets != [] && AvcC(sets).Record?)
            && (d.Declared? ==>
                  && Consistent(d.after) && d.after.started && d.after.params == sets
                  && d.after.declaredWidth == s.width && d.after.declaredHeight == s.height
                  && ((d.out == [] && InForce(d.after) == InForce(s)) || d.out == d.after.header))
  {
    hide InitSegment, AvcC, LastSet, Sample, Box;
    BothSetsAreSets(unit);
  }

  lemma BothSetsAreSets(unit: seq<byte>)
    ensures CarriesSets(unit) ==> Sets(unit) != []
  {
  }

  lemma NoSampleNoPicture(nals: seq<Nal>)
    ensures Prefixed(nals, 4) == [] <==> nals == []
  {
  }

  lemma {:induction false} EachIsWithin(nals: seq<Nal>)
    ensures forall k :: 0 <= k < |nals| ==> |nals[k]| <= |Prefixed(nals, 4)|
  {
    if nals != [] {
      EachIsWithin(nals[1..]);
      assert forall k :: 1 <= k < |nals| ==> nals[k] == nals[1..][k - 1];
    }
  }

  /** Playing a fragment and the media data it addresses. */
  lemma PlayFragment(moof: seq<byte>, mdat: seq<byte>, rest: seq<byte>, config: Config, info: FragmentInfo, nals: seq<seq<byte>>)
    requires IsBox(moof, MOOF) && |moof| < TWO_32 && IsBox(mdat, MDAT) && |mdat| < TWO_32
    requires ReadFragment(moof[8..]) == Some(info) && info.track == TRACK_ID
    requires info.offset == |moof| + 8 && info.size == |mdat| - 8 && Split(mdat[8..], 4) == Some(nals)
    requires Play(rest, Some(config)).Some?
    ensures Play(moof + (mdat + rest), Some(config)) ==
            Some([Picture(config, info.sequence, info.key, info.time, info.duration, nals)] + Play(rest, Some(config)).value)
  {
    hide PutBE, BE, Split, ReadFragment, ReadConfig, ReadBox;
    BoxReadsBack(moof, MOOF, mdat + rest);
    TakesPicture(moof, mdat, rest, config, info, nals);
    hide TakePicture;
  }

  lemma TakesPicture(moof: seq<byte>, mdat: seq<byte>, rest: seq<byte>, config: Config, info: FragmentInfo, nals: seq<seq<byte>>)
    requires |moof| >= 8 && IsBox(mdat, MDAT) && |mdat| < TWO_32
    requires ReadFragment(moof[8..]) == Some(info) && info.track == TRACK_ID
    requires info.offset == |moof| + 8 && info.size == |mdat| - 8 && Split(mdat[8..], 4) == Some(nals)
    ensures TakePicture(moof + (mdat + rest), moof[8..], mdat + rest, config) ==
            Some((Picture(config, info.sequence, info.key, info.time, info.duration, nals), rest))
  {
    hide PutBE, BE, Split, ReadFragment, ReadBox;
    BoxReadsBack(mdat, MDAT, rest);
    var d := moof + (mdat + rest);
    assert d[info.offset..info.offset + info.size] == mdat[8..];
  }

  /** Reading a printed picture: the fragment, then the media data at the offset it states. */
  lemma PlayPicture(s: Stream, unit: seq<byte>, key: bool, pts: uint64, config: Config, rest: seq<byte>)
    requires SizesStated(unit) && Sample(unit) != []
    requires Play(rest, Some(config)).Some?
    ensures Play(PictureBytes(s, Sample(unit), key, pts) + rest, Some(config)) ==
            Some([Picture(config, (s.sequence + 1) % TWO_32, key, s.timeline, Duration(s, pts), PictureNals(Nals(unit)))]
                 + Play(rest, Some(config)).value)
  {
    hide Play, PutBE, BE, Prefixed, Split, ReadFragment, NalsFrom, PictureNals, Box, MoofPayload, Fragment, AvcC, Sets;
    var sample, nals := Sample(unit), PictureNals(Nals(unit));
    BoxIs(MDAT, sample);
    EachIsWithin(nals);
    var sequence, time, duration := (s.sequence + 1) % TWO_32, s.timeline, Duration(s, pts);
    var moof, mdat := Fragment(sequence, time, duration, key, |sample|), Box(MDAT, sample);
    FragmentIsBox(sequence, time, duration, key, |sample|);
    BoxIs(MOOF, MoofPayload(sequence, time, duration, key, |sample|));
    FragmentReadsBack(sequence, time, duration, key, |sample|);
    PrefixWidths();
    SplitUndoesPrefix(nals, 4);
    PlayFragment(moof, mdat, rest, config, FragmentInfo(sequence, TRACK_ID, time, 108, duration, |sample|, key), nals);
    assert PictureBytes(s, sample, key, pts) + rest == moof + (mdat + rest);
  }

  lemma BoxIs(typ: uint32, payload: seq<byte>)
    ensures IsBox(Box(typ, payload), typ) && |Box(typ, payload)| == 8 + |payload| && Box(typ, payload)[8..] == payload
  {
    hide PutBE;
  }

  /** Reading a printed declaration puts it in force. */
  lemma PlayDeclaration(width: nat, height: nat, avcC: seq<byte>, config: Option<Config>, rest: seq<byte>)
    requires |avcC| <= MAX_RECORD
    ensures Play(InitSegment(width, height, avcC) + rest, config) ==
            Play(rest, Some(Config(width % TWO_16, height % TWO_16, avcC)))
  {
    hide PutBE, BE, ReadConfig, ReadBox, Box, MoovPayload, Ftyp;
    var payload := MoovPayload(width, height, avcC);
    var moov := Box(MOOV, payload);
    MoovSize(width, height, avcC);
    assert InitSegment(width, height, avcC) + rest == Ftyp() + (moov + rest);
    BoxReadsBack(Ftyp(), FTYP, moov + rest);
    BoxReadsBack(moov, MOOV, rest);
    DeclarationReadsBack(width, height, avcC);
  }

  /** One accepted unit: what it prints is what it means, and the states still correspond. */
  lemma PlayUnit(s: Stream, unit: seq<byte>, key: bool, pts: uint64, rest: seq<byte>)
    requires Consistent(s) && SizesStated(unit)
    ensures var r := Abstract(s);
            var w := Write(s, unit, key, pts);
            && w.Written? == Accepts(r, unit, key)
            && (w.Written? ==>
                  && Consistent(w.after) && Abstract(w.after) == Advance(r, unit, pts)
                  && (Play(rest, InForce(w.after)).Some? ==>
                        Play(w.declaration + w.picture + rest, InForce(s)) ==
                        Some([PictureOf(r, unit, key, pts)] + Play(rest, InForce(w.after)).value)))
  {
    hide Redeclare, Declare, InitSegment, PictureBytes, AvcC, Play, NalsFrom, PictureNals, Prefixed, Box, SizesStated;
    DeclarationInForce(s, unit);
    RedeclareKeepsTimeline(s, unit);
    NoSampleNoPicture(PictureNals(Nals(unit)));
    NoPictureInNothing();
    var outcome := Write(s, unit, key, pts);
    if outcome.Written? {
      var out, picture, after := outcome.declaration, outcome.picture, outcome.after;
      var d := Redeclare(s, unit).after;
      var config := InForce(d).value;
      assert InForce(after) == Some(config);
      if Play(rest, Some(config)).Some? {
        PlayPicture(d, unit, key, pts, config, rest);
        assert out + picture + rest == out + (picture + rest);
        if out == d.header && out != [] {
          PlayDeclaration(d.declaredWidth, d.declaredHeight, AvcC(d.params).bytes, InForce(s), picture + rest);
        } else {
          HeaderNotEmpty(d);
          assert out + (picture + rest) == picture + rest;
        }
      }
    }
  }

  lemma NoPictureInNothing()
    ensures PictureNals(Nals([])) == []
  {
  }

  lemma HeaderNotEmpty(s: Stream)
    requires Consistent(s) && s.started
    ensures s.header != []
  {
    hide AvcC, MoovPayload;
  }

  /**
   What a player reads from the bytes of any run is what the run means: a picture for each accepted unit, in
   order, under the current size and the latest sets, with its own NAL units at its place on the timeline.
   */
  lemma {:induction false} PlayedIsMeant(s: Stream, calls: seq<Call>)
    requires Consistent(s)
    requires forall k :: 0 <= k < |calls| ==> Bounded(calls[k])
    ensures Play(Output(s, calls), InForce(s)) == Some(Meaning(Abstract(s), calls))
    ensures Consistent(Final(s, calls))
    decreases |calls|
  {
    hide Write, Play, InForce, Accepts, PictureOf, Advance, Consistent, Abstract, Bounded;
    if calls == [] {
      PlayNothing(InForce(s));
    } else {
      var (next, out) := After(s, calls[0]);
      var rest := calls[1..];
      match calls[0]
      case SetSize(w, h) =>
        SizeKeepsDeclaration(s, w, h);
        PlayedIsMeant(next, rest);
        assert out + Output(next, rest) == Output(next, rest);
      case Unit(unit, key, pts) =>
        BoundedUnit(calls[0]);
        PlayUnit(s, unit, key, pts, Output(next, rest));
        PlayedIsMeant(next, rest);
        if Write(s, unit, key, pts).Refused? { assert out + Output(next, rest) == Output(next, rest); }
    }
  }

  lemma BoundedUnit(call: Call)
    requires Bounded(call) && call.Unit?
    ensures SizesStated(call.unit)
  {
  }

  lemma PlayNothing(config: Option<Config>)
    ensures Play([], config) == Some([])
  {
  }

  lemma SizeKeepsDeclaration(s: Stream, w: int, h: int)
    requires Consistent(s)
    ensures var next := After(s, SetSize(w, h)).0;
            && Consistent(next) && InForce(next) == InForce(s)
            && Abstract(next) == if w > 0 && h > 0 then Abstract(s).(width := w, height := h) else Abstract(s)
  {
    hide AvcC, InitSegment, Write;
  }

  /** The same from the first byte: a fresh writer's whole output. */
  lemma SessionReadsBack(width: nat, height: nat, calls: seq<Call>)
    requires forall k :: 0 <= k < |calls| ==> Bounded(calls[k])
    ensures Play(Output(Fresh(width, height), calls), None) ==
            Some(Meaning(Reference(width, height, [], None, NOMINAL_DURATION, 0, 0), calls))
  {
    PlayedIsMeant(Fresh(width, height), calls);
  }

  /**
   A reader that attaches later and is sent the writer's own header first reads, from there on, exactly what the
   rest of the run means.
   */
  lemma LateReader(width: nat, height: nat, before: seq<Call>, more: seq<Call>)
    requires forall k :: 0 <= k < |before| ==> Bounded(before[k])
    requires forall k :: 0 <= k < |more| ==> Bounded(more[k])
    ensures var s := Final(Fresh(width, height), before);
            Play(s.header + Output(s, more), None) == Some(Meaning(Abstract(s), more))
  {
    hide Play, Output, Final, Meaning, AvcC, Bounded, InForce;
    FreshIsConsistent(width, height);
    PlayedIsMeant(Fresh(width, height), before);
    hide Consistent;
    var s := Final(Fresh(width, height), before);
    PlayedIsMeant(s, more);
    PlayHeader(s, Output(s, more));
  }

  lemma FreshIsConsistent(width: nat, height: nat)
    ensures Consistent(Fresh(width, height))
  {
  }

  /** The writer's own header puts in force what a reader from the first byte has in force. */
  lemma PlayHeader(s: Stream, rest: seq<byte>)
    requires Consistent(s)
    ensures Play(s.header + rest, None) == Play(rest, InForce(s))
  {
    hide Play, AvcC, InitSegment;
    if s.started {
      PlayDeclaration(s.declaredWidth, s.declaredHeight, AvcC(s.params).bytes, None, rest);
    } else {
      assert s.header + rest == rest;
    }
  }

  // ----- The timeline

  /** The timestamps of the accepted units, in order. */
  function AcceptedPTS(r: Reference, calls: seq<Call>): seq<uint64>
    decreases |calls|
  {
    if calls == [] then []
    else
      match calls[0]
      case SetSize(w, h) => AcceptedPTS(if w > 0 && h > 0 then r.(width := w, height := h) else r, calls[1..])
      case Unit(unit, key, pts) =>
        if Accepts(r, unit, key) then [pts] + AcceptedPTS(Advance(r, unit, pts), calls[1..])
        else AcceptedPTS(r, calls[1..])
  }

  /** One picture follows the other on the timeline and in the sequence. */
  predicate Follows(a: Picture, b: Picture) {
    && b.time == (a.time + a.duration) % TWO_64
    && b.sequence == (a.sequence + 1) % TWO_32
  }

  /** At least one tick, in the widths there are. */
  predicate Lasts(p: Picture) { 1 <= p.duration < TWO_32 && p.time < TWO_64 }

  /** Every picture lasts at least one tick and begins where the one before it ends, whatever the device's clock does. */
  lemma {:induction false} TimelineRuns(r: Reference, calls: seq<Call>)
    requires r.duration >= 1
    ensures var m := Meaning(r, calls);
            && |m| == |AcceptedPTS(r, calls)|
            && (m != [] ==> m[0].time == r.time && m[0].sequence == (r.sequence + 1) % TWO_32)
            && (forall k :: 0 <= k < |m| ==> Lasts(m[k]))
            && (forall k :: 0 < k < |m| ==> Follows(m[k - 1], m[k]))
    decreases |calls|
  {
    hide Accepts, LatestSets;
    if calls != [] {
      match calls[0]
      case SetSize(w, h) => TimelineRuns(if w > 0 && h > 0 then r.(width := w, height := h) else r, calls[1..]);
      case Unit(unit, key, pts) =>
        if Accepts(r, unit, key) {
          var next := Advance(r, unit, pts);
          TimelineRuns(next, calls[1..]);
          var p, rest := PictureOf(r, unit, key, pts), Meaning(next, calls[1..]);
          assert Lasts(p) && next.duration >= 1 && p.time == r.time && p.sequence == (r.sequence + 1) % TWO_32;
          assert next.time == (p.time + p.duration) % TWO_64 && next.sequence == p.sequence;
          hide PictureOf, Advance;
          RunThenRuns(p, rest);
        } else {
          TimelineRuns(r, calls[1..]);
        }
    }
  }

  /** A picture in front of a run of pictures that follow it. */
  lemma RunThenRuns(p: Picture, rest: seq<Picture>)
    requires Lasts(p) && (rest != [] ==> Follows(p, rest[0]))
    requires forall k :: 0 <= k < |rest| ==> Lasts(rest[k])
    requires forall k :: 0 < k < |rest| ==> Follows(rest[k - 1], rest[k])
    ensures var m := [p] + rest;
            && (forall k :: 0 <= k < |m| ==> Lasts(m[k]))
            && (forall k :: 0 < k < |m| ==> Follows(m[k - 1], m[k]))
  {
    hide Follows, Lasts;
    var m := [p] + rest;
    forall k | 0 < k < |m| ensures Follows(m[k - 1], m[k]) {
      if k > 1 {
        assert Follows(rest[k - 2], rest[k - 1]);
      }
    }
  }

  /** Decode times strictly increase exactly as long as the 64-bit timeline has room. */
  lemma DecodeTimesIncrease(r: Reference, calls: seq<Call>, k: nat)
    requires r.duration >= 1 && 0 < k < |Meaning(r, calls)|
    ensures var a, b := Meaning(r, calls)[k - 1], Meaning(r, calls)[k];
            a.time < b.time <==> a.time + a.duration < TWO_64
  {
    hide Meaning, AcceptedPTS;
    TimelineRuns(r, calls);
    assert Follows(Meaning(r, calls)[k - 1], Meaning(r, calls)[k]) && Lasts(Meaning(r, calls)[k - 1]);
  }

  /** A device clock that runs forward, by less than 32 bits at a time. */
  predicate Forward(pts: seq<uint64>) {
    forall k :: 0 < k < |pts| ==> pts[k - 1] < pts[k] && pts[k] - pts[k - 1] < TWO_32
  }

  /** The device time between the first picture and the one before picture k. */
  function Elapsed(pts: seq<uint64>, k: nat): int
    requires 0 < k <= |pts|
  {
    pts[k - 1] as int - pts[0] as int
  }

  /** While the device clock runs forward, a picture's decode time is the nominal first duration plus the device's own elapsed time. */
  lemma {:induction false} DecodeTimesTelescope(r: Reference, calls: seq<Call>, k: nat)
    requires r.duration >= 1 && 0 < k < |Meaning(r, calls)| == |AcceptedPTS(r, calls)|
    requires Forward(AcceptedPTS(r, calls))
    requires var pts := AcceptedPTS(r, calls);
             Meaning(r, calls)[0].time + Meaning(r, calls)[0].duration + Elapsed(pts, k) < TWO_64
    ensures var m, pts := Meaning(r, calls), AcceptedPTS(r, calls);
            m[k].time == m[0].time + m[0].duration + Elapsed(pts, k)
    decreases k
  {
    hide Meaning, AcceptedPTS;
    var m, pts := Meaning(r, calls), AcceptedPTS(r, calls);
    TimelineRuns(r, calls);
    assert Follows(m[k - 1], m[k]);
    if k > 1 {
      assert pts[k - 2] < pts[k - 1];
      DecodeTimesTelescope(r, calls, k - 1);
      DurationsAreDeltas(r, calls, k - 1);
    }
  }

  /** A picture after a smaller timestamp lasts exactly the difference. */
  lemma {:induction false} DurationsAreDeltas(r: Reference, calls: seq<Call>, k: nat)
    requires k < |Meaning(r, calls)| == |AcceptedPTS(r, calls)|
    requires k == 0 ==> r.last.Some?
    ensures var pts := AcceptedPTS(r, calls);
            var before := if k == 0 then r.last.value else pts[k - 1];
            before < pts[k] && pts[k] - before < TWO_32 ==> Meaning(r, calls)[k].duration == pts[k] - before
    decreases |calls|
  {
    hide Accepts, LatestSets;
    match calls[0]
    case SetSize(w, h) => DurationsAreDeltas(if w > 0 && h > 0 then r.(width := w, height := h) else r, calls[1..], k);
    case Unit(unit, key, pts) =>
      if Accepts(r, unit, key) {
        if k > 0 {
          var next := Advance(r, unit, pts);
          assert Meaning(r, calls)[1..] == Meaning(next, calls[1..]);
          assert AcceptedPTS(r, calls)[1..] == AcceptedPTS(next, calls[1..]);
          DurationsAreDeltas(next, calls[1..], k - 1);
        }
      } else {
        DurationsAreDeltas(r, calls[1..], k);
      }
  }

  /** For a whole session: with a forward clock, picture k is decoded at 33333 + pts[k-1] - pts[0]. */
  lemma SessionTimeline(width: nat, height: nat, calls: seq<Call>, k: nat)
    requires var r := Reference(width, height, [], None, NOMINAL_DURATION, 0, 0);
             var pts := AcceptedPTS(r, calls);
             && Forward(pts)
             && 0 < k < |pts|
             && NOMINAL_DURATION + Elapsed(pts, k) < TWO_64
    ensures var r := Reference(width, height, [], None, NOMINAL_DURATION, 0, 0);
            var pts := AcceptedPTS(r, calls);
            k < |Meaning(r, calls)| == |pts| && Meaning(r, calls)[k].time == 33333 + (pts[k - 1] as int - pts[0] as int)
  {
    var r := Reference(width, height, [], None, NOMINAL_DURATION, 0, 0);
    TimelineRuns(r, calls);
    FirstDuration(r, calls);
    DecodeTimesTelescope(r, calls, k);
  }

  lemma {:induction false} FirstDuration(r: Reference, calls: seq<Call>)
    requires r.last.None?
    ensures Meaning(r, calls) != [] ==> Meaning(r, calls)[0].duration == r.duration
    decreases |calls|
  {
    hide Accepts, LatestSets;
    if calls != [] {
      match calls[0]
      case SetSize(w, h) => FirstDuration(if w > 0 && h > 0 then r.(width := w, height := h) else r, calls[1..]);
      case Unit(unit, key, pts) => if !Accepts(r, unit, key) { FirstDuration(r, calls[1..]); }
    }
  }
}
