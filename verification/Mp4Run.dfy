/** The writer object run over a list of calls, and the parameter sets its pictures are declared with. */
module Mp4Run {
  import opened Bytes
  import opened Wrappers
  import opened AnnexB
  import opened AnnexBLaws
  import opened Mp4Sample
  import opened Mp4Reader
  import opened Mp4Session
  import opened Mp4Writer

  // ----- The sets a declaration holds

  function LastOfType(nals: seq<Nal>, typ: nat): seq<Nal> {
    var of := OfType(nals, typ);
    if of == [] then [] else of[|of| - 1..]
  }

  /** What is extracted as a set is the last unit of its type, in a start code of its own. */
  lemma {:induction false} LastSetIsLast(d: seq<byte>, typ: nat, k: nat)
    requires k <= |Spans(d)| == |Nals(d)|
    ensures var set', last := LastSet(d, Spans(d)[..k], typ), LastOfType(Nals(d)[..k], typ);
            if set' == [] then last == [] else OneUnit(set') && last == [UnitBody(set')]
  {
    hide NextCode, CodeLen, SpansFrom, NalsFrom, OneUnit;
    if k > 0 {
      var n := k - 1;
      LastSetIsLast(d, typ, n);
      SpanAt(d, 0, n);
      assert Spans(d)[..k] == Spans(d)[..n] + [Spans(d)[n]];
      assert Nals(d)[..k] == Nals(d)[..n] + [Nals(d)[n]];
      OneMoreOfType(Nals(d)[..n], Nals(d)[n], typ);
      SliceIsUnit(d, Spans(d)[n]);
    }
  }

  /** The sets of a unit: its last SPS - less a zero at its end, if the PPS follows in a short start code - and its last PPS. */
  function OwnSets(unit: seq<byte>): (seq<Nal>, seq<Nal>) {
    var sps, pps := LastOfType(Nals(unit), 7), LastOfType(Nals(unit), 8);
    (if sps == [] then [] else [Kept(sps[0], CodeLen(Pps(unit), 0))], pps)
  }

  lemma SetsAreOwn(unit: seq<byte>)
    requires CarriesSets(unit)
    ensures OfType(Nals(Sets(unit)), NAL_SPS) == OwnSets(unit).0 && OfType(Nals(Sets(unit)), NAL_PPS) == OwnSets(unit).1
    ensures |OwnSets(unit).0| == |OwnSets(unit).1| == 1
  {
    hide NextCode, CodeLen, SpansFrom, NalsFrom;
    SpansMatchNals(unit);
    var n := |Spans(unit)|;
    assert Spans(unit)[..n] == Spans(unit) && Nals(unit)[..n] == Nals(unit);
    LastSetIsLast(unit, NAL_SPS, n);
    LastSetIsLast(unit, NAL_PPS, n);
    ExtractedSet(unit, NAL_SPS);
    ExtractedSet(unit, NAL_PPS);
    ScanUnitThen(Sps(unit), Pps(unit));
    OneUnitAlone(Pps(unit));
    TwoOfTheirTypes(OwnSets(unit).0[0], OwnSets(unit).1[0]);
  }

  lemma OneUnitAlone(a: seq<byte>)
    requires OneUnit(a)
    ensures Nals(a) == [UnitBody(a)]
  {
    hide NextCode, CodeLen, NalsFrom, SpansFrom;
    CodeAtIsNext(a, 0);
    ScanStep(a, 0);
    var h := CodeLen(a, 0);
    assert NextCode(a, 0) == 0 && NextCode(a, h + 1) == |a|;
    assert a[h..|a|] == a[h..];
    assert [UnitBody(a)] + [] == [UnitBody(a)];
  }

  lemma TwoOfTheirTypes(sps: Nal, pps: Nal)
    requires NalType(sps) == NAL_SPS && NalType(pps) == NAL_PPS
    ensures OfType([sps, pps], NAL_SPS) == [sps] && OfType([sps, pps], NAL_PPS) == [pps]
  {
    assert [sps, pps][1..] == [pps] && [pps][1..] == [];
    assert OfType([], NAL_SPS) == [] && OfType([], NAL_PPS) == [];
    assert OfType([pps], NAL_SPS) == [] && OfType([pps], NAL_PPS) == [pps];
  }

  /** What a declaration of a unit's own sets states. */
  ghost predicate StatesOwn(avcC: seq<byte>, unit: seq<byte>) {
    var (sps, pps) := OwnSets(unit);
    && |sps| == |pps| == 1 && |sps[0]| >= 4
    && ReadRecord(avcC) == Some(Codec(sps[0][1], sps[0][2], sps[0][3], 4, sps, pps))
  }

  /** A declaration of a unit's sets is read as those, at the SPS's own profile and level, exactly when each has a 16-bit length. */
  lemma DeclaresItsOwnSets(unit: seq<byte>)
    requires CarriesSets(unit) && AvcC(Sets(unit)).Record?
    ensures |OwnSets(unit).0| == |OwnSets(unit).1| == 1 && |OwnSets(unit).0[0]| >= 4
    ensures StatesOwn(AvcC(Sets(unit)).bytes, unit) <==>
            |OwnSets(unit).0[0]| < TWO_16 && |OwnSets(unit).1[0]| < TWO_16
  {
    hide OwnSets, ReadRecord, Sets, OfType, Nals;
    SetsAreOwn(unit);
    PrefixWidths();
    RecordReadsBack(OwnSets(unit).0, OwnSets(unit).1);
  }

  ghost predicate IsUnitOf(unit: seq<byte>, calls: seq<Call>) {
    exists k :: 0 <= k < |calls| && calls[k].Unit? && calls[k].unit == unit
  }

  /** A configuration made of one unit's sets. */
  ghost predicate DeclaredBy(config: Config, unit: seq<byte>) {
    CarriesSets(unit) && AvcC(Sets(unit)).Record? && config.avcC == AvcC(Sets(unit)).bytes
  }

  /** A configuration made of the sets of one of a run's units, or of the unit the reference has its sets from. */
  ghost predicate Explained(config: Config, r: Reference, from: seq<byte>, calls: seq<Call>) {
    exists unit :: DeclaredBy(config, unit) && (IsUnitOf(unit, calls) || (r.sets != [] && unit == from))
  }

  /** Every picture of a run is declared with such sets. */
  lemma {:induction false} PicturesAreDeclared(r: Reference, from: seq<byte>, calls: seq<Call>)
    requires r.sets == [] || (CarriesSets(from) && r.sets == Sets(from))
    ensures forall k :: 0 <= k < |Meaning(r, calls)| ==> Explained(Meaning(r, calls)[k].config, r, from, calls)
    decreases |calls|
  {
    hide AvcC, Sets, CarriesSets, PictureNals, IsUnitOf, DeclaredBy, Accepts, PictureOf;
    if calls != [] {
      UnitsOfRest(calls);
      match calls[0]
      case SetSize(w, h) =>
        PicturesAreDeclared(if w > 0 && h > 0 then r.(width := w, height := h) else r, from, calls[1..]);
      case Unit(unit, key, pts) =>
        if Accepts(r, unit, key) {
          var source := SourceOf(unit, from);
          AcceptedIsDeclared(r, from, unit, key, pts);
          var next, p := Advance(r, unit, pts), PictureOf(r, unit, key, pts);
          PicturesAreDeclared(next, source, calls[1..]);
          FirstUnit(calls);
          forall config | Explained(config, next, source, calls[1..]) ensures Explained(config, r, from, calls) {
            var maker :| DeclaredBy(config, maker) && (IsUnitOf(maker, calls[1..]) || (next.sets != [] && maker == source));
          }
          var rest := Meaning(next, calls[1..]);
          assert Meaning(r, calls) == [p] + rest;
          assert forall k :: 0 < k < |[p] + rest| ==> ([p] + rest)[k] == rest[k - 1];
        } else {
          PicturesAreDeclared(r, from, calls[1..]);
        }
    }
  }

  function SourceOf(unit: seq<byte>, from: seq<byte>): seq<byte> { if CarriesSets(unit) then unit else from }

  lemma AcceptedIsDeclared(r: Reference, from: seq<byte>, unit: seq<byte>, key: bool, pts: uint64)
    requires Accepts(r, unit, key) && (r.sets == [] || (CarriesSets(from) && r.sets == Sets(from)))
    ensures var source := SourceOf(unit, from);
            && DeclaredBy(PictureOf(r, unit, key, pts).config, source)
            && CarriesSets(source) && Advance(r, unit, pts).sets == Sets(source) && (source == unit || r.sets != [])
  {
    hide AvcC, Sets, CarriesSets, PictureNals;
  }

  lemma UnitsOfRest(calls: seq<Call>)
    requires calls != []
    ensures forall unit :: IsUnitOf(unit, calls[1..]) ==> IsUnitOf(unit, calls)
  {
    forall unit | IsUnitOf(unit, calls[1..]) ensures IsUnitOf(unit, calls) {
      var k :| 0 <= k < |calls| - 1 && calls[1..][k].Unit? && calls[1..][k].unit == unit;
      assert calls[k + 1].unit == unit;
    }
  }

  lemma FirstUnit(calls: seq<Call>)
    requires calls != [] && calls[0].Unit?
    ensures IsUnitOf(calls[0].unit, calls)
  {
  }

  /** In a whole session every picture is declared with the last sets of one of the session's own units. */
  lemma SessionIsDeclared(width: nat, height: nat, calls: seq<Call>, k: nat) returns (unit: seq<byte>)
    requires k < |Meaning(Reference(width, height, [], None, NOMINAL_DURATION, 0, 0), calls)|
    ensures IsUnitOf(unit, calls) && CarriesSets(unit)
    ensures var config := Meaning(Reference(width, height, [], None, NOMINAL_DURATION, 0, 0), calls)[k].config;
            var (sps, pps) := OwnSets(unit);
            && |sps| == |pps| == 1
            && (StatesOwn(config.avcC, unit) <==> |sps[0]| < TWO_16 && |pps[0]| < TWO_16)
  {
    var r := Reference(width, height, [], None, NOMINAL_DURATION, 0, 0);
    hide AvcC, Sets, CarriesSets, PictureNals, IsUnitOf, ReadRecord, OwnSets, Meaning, StatesOwn;
    PicturesAreDeclared(r, [], calls);
    assert Explained(Meaning(r, calls)[k].config, r, [], calls);
    unit :| DeclaredBy(Meaning(r, calls)[k].config, unit) && IsUnitOf(unit, calls);
    SetsAreOwn(unit);
    DeclaresItsOwnSets(unit);
  }

  // ----- The object

  lemma OutputStep(s: Stream, calls: seq<Call>, k: nat)
    requires k < |calls|
    ensures var (next, out) := After(s, calls[k]);
            && Output(s, calls[k..]) == out + Output(next, calls[k + 1..])
            && Final(s, calls[k..]) == Final(next, calls[k + 1..])
  {
    assert calls[k..][0] == calls[k] && calls[k..][1..] == calls[k + 1..];
    hide After;
  }

  /**
   The writer object over a list of calls and a sink that takes everything: the sink holds what the calls put out, the
   object is where they lead, and a player reads from the sink what they mean.
   */
  method RunWriter(width: nat, height: nat, calls: seq<Call>) returns (writer: MP4Writer, sink: Sink)
    requires width > 0 && height > 0
    requires forall k :: 0 <= k < |calls| ==> Mp4Session.Bounded(calls[k])
    ensures writer.sink == sink && writer.Valid() && writer.State() == Final(Fresh(width, height), calls)
    ensures sink.bytes == Output(Fresh(width, height), calls) && writer.written == |sink.bytes| % TWO_64
    ensures Play(sink.bytes, None) == Some(Meaning(Reference(width, height, [], None, NOMINAL_DURATION, 0, 0), calls))
  {
    hide Output, Final, Play, Meaning, Write, HeaderAgrees, Mp4Session.Bounded;
    sink := new Sink(true);
    writer := new MP4Writer(sink, width, height);
    ghost var fresh' := writer.State();
    assert calls[0..] == calls;
    for k := 0 to |calls|
      invariant fresh(writer) && fresh(sink) && writer.sink == sink && sink.sound && writer.Valid() && writer.base == 0
      invariant Output(fresh', calls) == sink.bytes + Output(writer.State(), calls[k..])
      invariant Final(fresh', calls) == Final(writer.State(), calls[k..])
    {
      OutputStep(writer.State(), calls, k);
      ghost var rest := Output(After(writer.State(), calls[k]).0, calls[k + 1..]);
      ghost var was := sink.bytes;
      match calls[k] {
        case SetSize(w, h) =>
          var _ := writer.SetSize(w, h);
          assert [] + rest == rest;
        case Unit(unit, key, pts) =>
          var _ := writer.WriteAccessUnit(unit, key, pts);
          Joins(was, rest);
      }
    }
    NothingLeft(writer.State(), calls);
    assert sink.bytes + [] == sink.bytes;
    SessionReadsBack(width, height, calls);
  }

  lemma Joins(was: seq<byte>, rest: seq<byte>)
    ensures forall out: seq<byte> :: was + (out + rest) == was + out + rest
    ensures [] + rest == rest
  {
    forall out: seq<byte> ensures was + (out + rest) == was + out + rest {}
  }

  lemma NothingLeft(s: Stream, calls: seq<Call>)
    ensures Output(s, calls[|calls|..]) == [] && Final(s, calls[|calls|..]) == s
  {
    assert calls[|calls|..] == [];
  }
}
