/**
 The fragmented MP4 writer: one live session's access units become a byte stream of declarations and fragments.
 The writer object is proved against a function on its state; Mp4Session proves what that function is for.
 */
module Mp4Writer {
  import opened Bytes
  import opened Wrappers
  import opened AnnexB
  import opened Mp4Boxes
  import opened Mp4Sample

  /** The duration of a stream's first picture, which has no predecessor. */
  const NOMINAL_DURATION := 33333

  datatype WriteError =
    | NotAPicture | FirstFrameNotKey | NoPicture | NoSets | Undeclarable(why: SetsError) | CodecChanged | SinkFailed

  /** A writer's fields. */
  datatype Stream = Stream(
    width: nat, height: nat, declaredWidth: nat, declaredHeight: nat,
    params: seq<byte>, header: seq<byte>, started: bool,
    seenPTS: bool, lastPTS: uint64, lastDur: uint32, timeline: uint64, sequence: uint32,
    frames: uint64, keys: uint64)

  function Fresh(width: nat, height: nat): Stream {
    Stream(width, height, 0, 0, [], [], false, false, 0, NOMINAL_DURATION, 0, 0, 0, 0)
  }

  /** What one call does: it refuses and changes nothing, or it has these bytes to write and this state after them. */
  datatype Outcome = Refused(error: WriteError) | Written(declaration: seq<byte>, picture: seq<byte>, after: Stream)

  /** The bytes of a declaration and the state after it, or why there is none. */
  datatype Declaring = Declared(out: seq<byte>, after: Stream) | NotDeclared(error: WriteError)

  function Declare(s: Stream, params: seq<byte>): Declaring {
    match AvcC(params)
    case NoRecord(why) => NotDeclared(if s.started then CodecChanged else Undeclarable(why))
    case Record(avcC) =>
      var header := InitSegment(s.width, s.height, avcC);
      Declared(header, s.(params := params, header := header,
                          declaredWidth := s.width, declaredHeight := s.height, started := true))
  }

  /** Which declaration, if any, has to precede this unit. */
  function Redeclare(s: Stream, unit: seq<byte>): Declaring {
    if !s.started then
      var sets := if CarriesSets(unit) then Sets(unit) else s.params;
      if sets == [] then NotDeclared(NoSets) else Declare(s, sets)
    else if CarriesSets(unit) && Sets(unit) != s.params then Declare(s, Sets(unit))
    else if s.declaredWidth != s.width || s.declaredHeight != s.height then Declare(s, s.params)
    else Declared([], s)
  }

  /** How long the picture at this timestamp lasts. */
  function Duration(s: Stream, pts: uint64): uint32 {
    if s.seenPTS && pts > s.lastPTS then
      if pts - s.lastPTS > TWO_32 - 1 then TWO_32 - 1 else pts - s.lastPTS
    else s.lastDur
  }

  function Stepped(s: Stream, pts: uint64): Stream {
    s.(lastPTS := pts, seenPTS := true, lastDur := Duration(s, pts))
  }

  function Counted(s: Stream, time: uint64, duration: uint32, key: bool): Stream {
    s.(sequence := (s.sequence + 1) % TWO_32, timeline := (time + duration) % TWO_64,
       frames := (s.frames + 1) % TWO_64, keys := if key then (s.keys + 1) % TWO_64 else s.keys)
  }

  /** One access unit. */
  function Write(s: Stream, unit: seq<byte>, key: bool, pts: uint64): Outcome {
    if unit == [] then Refused(NotAPicture)
    else if !s.started && !key then Refused(FirstFrameNotKey)
    else if Sample(unit) == [] then Refused(NoPicture)
    else
      match Redeclare(s, unit)
      case NotDeclared(error) => Refused(error)
      case Declared(out, d) =>
        Written(out, PictureBytes(d, Sample(unit), key, pts), Counted(Stepped(d, pts), d.timeline, Duration(d, pts), key))
  }

  /** A fragment and the media data it describes. */
  function PictureBytes(s: Stream, sample: seq<byte>, key: bool, pts: uint64): seq<byte> {
    Fragment((s.sequence + 1) % TWO_32, s.timeline, Duration(s, pts), key, |sample|) + Box(MDAT, sample)
  }

  lemma RedeclareKeepsTimeline(s: Stream, unit: seq<byte>)
    ensures var d := Redeclare(s, unit);
            d.Declared? ==>
              && d.after.frames == s.frames && d.after.keys == s.keys
              && d.after.timeline == s.timeline && d.after.sequence == s.sequence
              && d.after.seenPTS == s.seenPTS && d.after.lastPTS == s.lastPTS && d.after.lastDur == s.lastDur
              && d.after.width == s.width && d.after.height == s.height && d.after.started
  {
    hide AvcC, InitSegment, LastSet;
  }

  /** The header the writer would re-send is a declaration of its own sets at the size it last declared. */
  ghost predicate HeaderAgrees(s: Stream) {
    && (s.started <==> s.params != [])
    && (s.started ==> AvcC(s.params).Record?)
    && (s.started ==> s.header == InitSegment(s.declaredWidth, s.declaredHeight, AvcC(s.params).bytes))
    && (!s.started ==> s.header == [])
  }

  lemma RecordNeedsSets(sets: seq<byte>)
    ensures AvcC(sets).Record? ==> sets != []
  {
  }

  lemma DeclaredAgrees(s: Stream, sets: seq<byte>)
    ensures var d := Declare(s, sets); d.Declared? ==> HeaderAgrees(d.after)
  {
    RecordNeedsSets(sets);
    hide AvcC, InitSegment;
  }

  /** A byte sink: it takes everything, or - when it is not sound - any prefix, and may report a failure. */
  class Sink {
    const sound: bool
    var bytes: seq<byte>

    constructor (sound: bool)
      ensures this.sound == sound && bytes == []
    {
      this.sound := sound;
      bytes := [];
    }

    method Write(data: seq<byte>) returns (written: nat, failed: bool)
      modifies this
      ensures written <= |data| && bytes == old(bytes) + data[..written]
      ensures sound ==> written == |data| && !failed
    {
      if sound {
        written, failed := |data|, false;
      } else {
        written :| 0 <= written <= |data|;
        failed := *;
      }
      bytes := bytes + data[..written];
    }
  }

  class MP4Writer {
    const sink: Sink
    var width: nat
    var height: nat
    var declaredWidth: nat
    var declaredHeight: nat
    var params: seq<byte>
    var header: seq<byte>
    var started: bool
    var seenPTS: bool
    var lastPTS: uint64
    var lastDur: uint32
    var timeline: uint64
    var sequence: uint32
    var frames: uint64
    var keys: uint64
    var written: uint64
    /** How many bytes the sink held when this writer was built. */
    ghost const base: nat

    ghost function State(): Stream
      reads this
    {
      Stream(width, height, declaredWidth, declaredHeight, params, header, started,
             seenPTS, lastPTS, lastDur, timeline, sequence, frames, keys)
    }

    /** The byte count is what this writer put on the wire, up to the counter's width; the header is its own declaration. */
    ghost predicate Valid()
      reads this, sink
    {
      base <= |sink.bytes| && written == (|sink.bytes| - base) % TWO_64 && HeaderAgrees(State())
    }

    constructor (sink: Sink, width: nat, height: nat)
      requires width > 0 && height > 0
      ensures this.sink == sink && Valid() && State() == Fresh(width, height) && base == |sink.bytes|
    {
      hide AvcC, Mp4Boxes.InitSegment;
      this.sink, this.width, this.height := sink, width, height;
      declaredWidth, declaredHeight, params, header, started := 0, 0, [], [], false;
      seenPTS, lastPTS, lastDur := false, 0, NOMINAL_DURATION;
      timeline, sequence, frames, keys, written := 0, 0, 0, 0, 0;
      base := |sink.bytes|;
    }

    /** The declaration that describes the pictures being written now: of the latest sets, at the size last declared. */
    method InitSegment() returns (segment: seq<byte>)
      requires Valid()
      ensures params == [] ==> segment == []
      ensures params != [] ==>
                && AvcC(params).Record?
                && segment == Mp4Boxes.InitSegment(declaredWidth, declaredHeight, AvcC(params).bytes)
    {
      segment := header;
    }

    method SetSize(width: int, height: int) returns (ok: bool)
      requires Valid()
      modifies this`width, this`height
      ensures ok == (width > 0 && height > 0)
      ensures State() == if ok then old(State()).(width := width, height := height) else old(State())
      ensures Valid()
    {
      ok := width > 0 && height > 0;
      if ok {
        this.width, this.height := width, height;
      }
    }

    method Put(data: seq<byte>) returns (ok: bool)
      requires Valid()
      modifies this`written, sink
      ensures Valid()
      ensures old(sink.bytes) <= sink.bytes <= old(sink.bytes) + data
      ensures ok ==> sink.bytes == old(sink.bytes) + data
      ensures sink.sound ==> ok
    {
      if data == [] {
        return true;
      }
      var n, failed := sink.Write(data);
      AddModulo(|old(sink.bytes)| - base, n);
      written := (written + n) % TWO_64;
      ok := !failed && n == |data|;
    }

    /** Writes a declaration of these sets and records what it declared. */
    method DeclareSets(sets: seq<byte>) returns (error: Option<WriteError>)
      requires Valid()
      modifies this`params, this`header, this`declaredWidth, this`declaredHeight, this`started, this`written, sink
      ensures Valid()
      ensures Does(Declare(old(State()), sets), old(State()), old(sink.bytes), error)
    {
      DeclaredAgrees(State(), sets);
      hide AvcC, Mp4Boxes.InitSegment, HeaderAgrees;
      var record := BuildAvcC(sets);
      if record.NoRecord? {
        return Some(if started then CodecChanged else Undeclarable(record.error));
      }
      var segment := Mp4Boxes.InitSegment(width, height, record.bytes);
      var ok := Put(segment);
      if !ok {
        return Some(SinkFailed);
      }
      RecordDeclaration(sets, segment);
      return None;
    }

    method RecordDeclaration(sets: seq<byte>, segment: seq<byte>)
      modifies this`params, this`header, this`declaredWidth, this`declaredHeight, this`started
      ensures State() == old(State()).(params := sets, header := segment,
                                       declaredWidth := width, declaredHeight := height, started := true)
    {
      params, header := sets, segment;
      declaredWidth, declaredHeight, started := width, height, true;
    }

    /** How a declaring call leaves the writer: as its specification says, or untouched with the sink at fault. */
    ghost predicate Does(d: Declaring, before: Stream, wire: seq<byte>, error: Option<WriteError>)
      reads this, sink
    {
      match d
      case NotDeclared(e) => error == Some(e) && State() == before && sink.bytes == wire
      case Declared(out, after) =>
        && wire <= sink.bytes <= wire + out
        && (error == None ==> State() == after && sink.bytes == wire + out)
        && (error != None ==> error == Some(SinkFailed) && State() == before && !sink.sound)
    }

    /** Writes the declaration a unit needs in front of it, if it needs one. */
    method RedeclareFor(unit: seq<byte>) returns (error: Option<WriteError>)
      requires Valid()
      modifies this`params, this`header, this`declaredWidth, this`declaredHeight, this`started, this`written, sink
      ensures Valid()
      ensures Does(Redeclare(old(State()), unit), old(State()), old(sink.bytes), error)
    {
      hide Declare, LastSet, SpansFrom, HeaderAgrees;
      var sps, pps := ParameterSets(unit);
      var carries := sps != [] && pps != [];
      if !started {
        var sets := if carries then sps + pps else params;
        if sets == [] {
          return Some(NoSets);
        }
        error := DeclareSets(sets);
      } else if carries && sps + pps != params {
        error := DeclareSets(sps + pps);
      } else if declaredWidth != width || declaredHeight != height {
        error := DeclareSets(params);
      } else {
        error := None;
      }
    }

    method Step(pts: uint64) returns (duration: uint32)
      modifies this`lastPTS, this`seenPTS, this`lastDur
      ensures State() == Stepped(old(State()), pts) && duration == Duration(old(State()), pts)
    {
      duration := NextDuration(pts);
      lastPTS, seenPTS, lastDur := pts, true, duration;
    }

    /** Writes a fragment and its sample and moves the timeline past them. */
    method PutPicture(sample: seq<byte>, key: bool, pts: uint64) returns (ok: bool)
      requires Valid()
      modifies this`lastPTS, this`seenPTS, this`lastDur, this`timeline, this`sequence, this`frames, this`keys, this`written, sink
      ensures Valid()
      ensures var s := old(State());
              var out := PictureBytes(s, sample, key, pts);
              && old(sink.bytes) <= sink.bytes <= old(sink.bytes) + out
              && (sink.sound ==> ok)
              && (ok ==> sink.bytes == old(sink.bytes) + out
                         && State() == Counted(Stepped(s, pts), s.timeline, Duration(s, pts), key))
              && (!ok ==> State() == Stepped(s, pts))
    {
      hide Fragment, Box, AvcC, Mp4Boxes.InitSegment;
      var time := timeline;
      var duration := Step(pts);
      var fragment := Fragment((sequence + 1) % TWO_32, time, duration, key, |sample|);
      ghost var wire := sink.bytes;
      ok := Put(fragment);
      if !ok {
        Extend(wire, fragment, Box(MDAT, sample), sink.bytes);
        return;
      }
      ok := Put(Box(MDAT, sample));
      Extend(wire, fragment, Box(MDAT, sample), sink.bytes);
      if !ok {
        return;
      }
      Count(time, duration, key);
    }

    function NextDuration(pts: uint64): (d: uint32)
      reads this
      ensures d == Duration(State(), pts)
    {
      if seenPTS && pts > lastPTS then
        if pts - lastPTS > TWO_32 - 1 then TWO_32 - 1 else pts - lastPTS
      else lastDur
    }

    method Count(time: uint64, duration: uint32, key: bool)
      modifies this`timeline, this`sequence, this`frames, this`keys
      ensures State() == Counted(old(State()), time, duration, key)
    {
      sequence := (sequence + 1) % TWO_32;
      timeline := (time + duration) % TWO_64;
      frames := (frames + 1) % TWO_64;
      if key {
        keys := (keys + 1) % TWO_64;
      }
    }

    /**
     Writes one picture as its own fragment, after the declaration it needs. A call that is refused leaves the
     wire and the state as they were; a call the sink fails has put out a prefix of its bytes and counted nothing.
     */
    method WriteAccessUnit(unit: seq<byte>, key: bool, pts: uint64) returns (error: Option<WriteError>)
      requires Valid()
      modifies this, sink
      ensures Valid()
      ensures match Write(old(State()), unit, key, pts)
              case Refused(e) => error == Some(e) && State() == old(State()) && sink.bytes == old(sink.bytes)
              case Written(out, picture, after) =>
                && old(sink.bytes) <= sink.bytes <= old(sink.bytes) + (out + picture)
                && (error == None ==> State() == after && sink.bytes == old(sink.bytes) + (out + picture))
                && (error != None ==>
                      && error == Some(SinkFailed) && !sink.sound
                      && (State() == old(State()) || State() == Stepped(Redeclare(old(State()), unit).after, pts))
                      && frames == old(frames) && keys == old(keys)
                      && timeline == old(timeline) && sequence == old(sequence))
    {
      hide Declare, Redeclare, Sample, PictureBytes, HeaderAgrees;
      if unit == [] {
        return Some(NotAPicture);
      }
      if !started && !key {
        return Some(FirstFrameNotKey);
      }
      var sample := ConvertUnit(unit);
      if sample.None? {
        return Some(NoPicture);
      }
      RedeclareKeepsTimeline(State(), unit);
      ghost var wire := sink.bytes;
      error := RedeclareFor(unit);
      if error.Some? {
        return;
      }
      ghost var declared := sink.bytes;
      var ok := PutPicture(sample.value, key, pts);
      PrefixThrough(wire, declared[|wire|..], declared, sink.bytes);
      error := if ok then None else Some(SinkFailed);
    }
  }

  lemma Extend(wire: seq<byte>, a: seq<byte>, b: seq<byte>, now: seq<byte>)
    ensures now <= wire + a ==> now <= wire + (a + b)
    ensures wire + a + b == wire + (a + b)
  {
  }

  /** What has been appended to a prefix is still a prefix of the whole. */
  lemma PrefixThrough(wire: seq<byte>, out: seq<byte>, declared: seq<byte>, now: seq<byte>)
    requires declared == wire + out
    ensures forall picture :: now <= declared + picture ==> now <= wire + (out + picture)
    ensures forall picture :: declared + picture == wire + (out + picture)
  {
    forall picture: seq<byte> ensures declared + picture == wire + (out + picture) {}
  }

  lemma AddModulo(a: int, n: int)
    ensures (a % TWO_64 + n) % TWO_64 == (a + n) % TWO_64
  {
  }
}
