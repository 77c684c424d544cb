/**
 From Annex-B to the two forms an avc1 track holds: the length-prefixed sample, and the decoder configuration
 record (section 5.3.3.1 of ISO/IEC 14496-15).
 */
module Mp4Sample {
  import opened Bytes
  import opened Wrappers
  import opened AnnexB
  import opened Mp4Boxes

  /** Every NAL unit after its own length, which is cut to the prefix's width. */
  function Prefixed(nals: seq<seq<byte>>, width: nat): seq<byte> {
    if nals == [] then []
    else PutBE(width, |nals[0]| % Pow256(width)) + nals[0] + Prefixed(nals[1..], width)
  }

  /** The sample of an access unit; empty when the unit holds no picture. */
  function Sample(unit: seq<byte>): seq<byte> { Prefixed(PictureNals(Nals(unit)), 4) }

  lemma {:induction false} PrefixedAppend(a: seq<seq<byte>>, b: seq<seq<byte>>, width: nat)
    ensures Prefixed(a + b, width) == Prefixed(a, width) + Prefixed(b, width)
  {
    if a == [] {
      assert a + b == b;
    } else {
      assert (a + b)[1..] == a[1..] + b;
      PrefixedAppend(a[1..], b, width);
    }
  }

  lemma {:induction false} PictureNalsAppend(a: seq<Nal>, b: seq<Nal>)
    ensures PictureNals(a + b) == PictureNals(a) + PictureNals(b)
  {
    if a == [] {
      assert a + b == b;
    } else {
      assert (a + b)[1..] == a[1..] + b;
      PictureNalsAppend(a[1..], b);
    }
  }

  lemma {:induction false} OfTypeAppend(a: seq<Nal>, b: seq<Nal>, typ: nat)
    ensures OfType(a + b, typ) == OfType(a, typ) + OfType(b, typ)
  {
    if a == [] {
      assert a + b == b;
    } else {
      assert (a + b)[1..] == a[1..] + b;
      OfTypeAppend(a[1..], b, typ);
    }
  }

  lemma SampleStep(nals: seq<Nal>, i: nat)
    requires i < |nals|
    ensures Prefixed(PictureNals(nals[..i + 1]), 4) ==
            Prefixed(PictureNals(nals[..i]), 4)
            + if IsParameterSet(nals[i]) then [] else U32(|nals[i]| % TWO_32) + nals[i]
  {
    var one := [nals[i]];
    assert nals[..i + 1] == nals[..i] + one;
    PictureNalsAppend(nals[..i], one);
    PrefixedAppend(PictureNals(nals[..i]), PictureNals(one), 4);
    PrefixWidths();
    assert one[1..] == [] && Prefixed(one, 4) == U32(|nals[i]| % TWO_32) + nals[i] + Prefixed([], 4);
  }

  /** Converts one access unit; None when it holds no picture. */
  method ConvertUnit(unit: seq<byte>) returns (sample: Option<seq<byte>>)
    ensures sample == if Sample(unit) == [] then None else Some(Sample(unit))
  {
    hide NalsFrom, SpansFrom, Prefixed, PictureNals, PutBE;
    var spans := NalSpans(unit);
    var out := [];
    ghost var nals := Nals(unit);
    SpansMatchNals(unit);
    NoSample(nals);
    for i := 0 to |spans|
      invariant i <= |nals| == |spans|
      invariant out == Prefixed(PictureNals(nals[..i]), 4)
    {
      SpanAt(unit, 0, i);
      SampleStep(nals, i);
      if spans[i].typ != NAL_SPS && spans[i].typ != NAL_PPS {
        var nal := NalPayload(unit, spans[i]);
        out := out + U32(|nal| % TWO_32) + nal;
      }
    }
    assert nals[..|spans|] == nals;
    sample := if out == [] then None else Some(out);
  }

  lemma NoSample(nals: seq<Nal>)
    ensures Prefixed(PictureNals(nals[..0]), 4) == []
  {
  }

  // ----- The decoder configuration record

  datatype SetsError = NoParameterSets | TooManySets | SetTooShort
  datatype RecordResult = Record(bytes: seq<byte>) | NoRecord(error: SetsError)

  predicate Declarable(sps: seq<Nal>, pps: seq<Nal>) {
    0 < |sps| <= 31 && 0 < |pps| <= 255 && |sps[0]| >= 4
  }

  function RecordBytes(sps: seq<Nal>, pps: seq<Nal>): seq<byte>
    requires Declarable(sps, pps)
  {
    [1, sps[0][1], sps[0][2], sps[0][3], 0xff, 0xe0 + |sps|] + Prefixed(sps, 2) + [|pps|] + Prefixed(pps, 2)
  }

  /** The record of these parameter sets, or why there is none. */
  function AvcC(params: seq<byte>): RecordResult {
    var sps, pps := OfType(Nals(params), NAL_SPS), OfType(Nals(params), NAL_PPS);
    if sps == [] || pps == [] then NoRecord(NoParameterSets)
    else if |sps| > 31 || |pps| > 255 then NoRecord(TooManySets)
    else if |sps[0]| < 4 then NoRecord(SetTooShort)
    else Record(RecordBytes(sps, pps))
  }

  /**
   Sets are declared exactly when the record's five and eight bits can count them and the first SPS has the bytes to
   state; what is refused is refused for the first of these that fails.
   */
  lemma DeclaredExactly(params: seq<byte>)
    ensures var sps, pps, r := OfType(Nals(params), NAL_SPS), OfType(Nals(params), NAL_PPS), AvcC(params);
            && (r.Record? <==> 1 <= |sps| < 32 && 1 <= |pps| < 256 && |sps[0]| > 3)
            && (r == NoRecord(NoParameterSets) <==> |sps| == 0 || |pps| == 0)
            && (r == NoRecord(TooManySets) <==> |sps| > 0 && |pps| > 0 && (|sps| >= 32 || |pps| >= 256))
  {
  }

  /** The parameter sets of a buffer, by type. */
  method CollectSets(params: seq<byte>) returns (sps: seq<Nal>, pps: seq<Nal>)
    ensures sps == OfType(Nals(params), NAL_SPS) && pps == OfType(Nals(params), NAL_PPS)
  {
    hide NalsFrom, SpansFrom, OfType;
    var spans := NalSpans(params);
    sps, pps := [], [];
    ghost var nals := Nals(params);
    SpansMatchNals(params);
    NoneOfType(NAL_SPS);
    NoneOfType(NAL_PPS);
    for i := 0 to |spans|
      invariant i <= |nals| == |spans|
      invariant sps == OfType(nals[..i], NAL_SPS) && pps == OfType(nals[..i], NAL_PPS)
    {
      SpanAt(params, 0, i);
      var nal := NalPayload(params, spans[i]);
      assert nals[..i + 1] == nals[..i] + [nal];
      OneMoreOfType(nals[..i], nal, NAL_SPS);
      OneMoreOfType(nals[..i], nal, NAL_PPS);
      if spans[i].typ == NAL_SPS {
        sps := sps + [nal];
      } else if spans[i].typ == NAL_PPS {
        pps := pps + [nal];
      }
    }
    assert nals[..|spans|] == nals;
  }

  lemma NoneOfType(typ: nat)
    ensures OfType([], typ) == []
  {
  }

  lemma OneMoreOfType(nals: seq<Nal>, nal: Nal, typ: nat)
    ensures OfType(nals + [nal], typ) == OfType(nals, typ) + if NalType(nal) == typ then [nal] else []
  {
    OfTypeAppend(nals, [nal], typ);
  }

  method BuildAvcC(params: seq<byte>) returns (r: RecordResult)
    ensures r == AvcC(params)
  {
    hide OfType, Prefixed;
    var sps, pps := CollectSets(params);
    if sps == [] || pps == [] {
      return NoRecord(NoParameterSets);
    }
    if |sps| > 31 || |pps| > 255 {
      return NoRecord(TooManySets);
    }
    if |sps[0]| < 4 {
      return NoRecord(SetTooShort);
    }
    var out: seq<byte> := [1, sps[0][1], sps[0][2], sps[0][3], 0xff, 0xe0 + |sps|];
    out := AppendSets(out, sps);
    out := out + [|pps|];
    out := AppendSets(out, pps);
    return Record(out);
  }

  method AppendSets(start: seq<byte>, sets: seq<Nal>) returns (out: seq<byte>)
    ensures out == start + Prefixed(sets, 2)
  {
    hide Prefixed, U16;
    out := start;
    OneMorePrefixed([], [0]);
    for i := 0 to |sets|
      invariant out == start + Prefixed(sets[..i], 2)
    {
      assert sets[..i + 1] == sets[..i] + [sets[i]];
      OneMorePrefixed(sets[..i], sets[i]);
      out := out + U16(|sets[i]| % TWO_16) + sets[i];
    }
    assert sets[..|sets|] == sets;
  }

  lemma OneMorePrefixed(sets: seq<Nal>, nal: Nal)
    ensures Prefixed(sets + [nal], 2) == Prefixed(sets, 2) + (U16(|nal| % TWO_16) + nal)
    ensures Prefixed([], 2) == []
  {
    PrefixedAppend(sets, [nal], 2);
    assert Prefixed([nal], 2) == U16(|nal| % TWO_16) + nal;
  }

  // ----- Reading both forms back

  /** Splits bytes into strings by length prefixes of a fixed width; None when a length runs past the end. */
  function Split(d: seq<byte>, width: nat): Option<seq<seq<byte>>>
    requires width > 0
  {
    if d == [] then Some([])
    else if |d| < width then None
    else
      var n := BE(d[..width]);
      if |d| < width + n then None
      else
        var rest := Split(d[width + n..], width);
        if rest.None? then None else Some([d[width..width + n]] + rest.value)
  }

  /** Takes n length-prefixed strings off the front. */
  function Take(d: seq<byte>, n: nat, width: nat): Option<(seq<seq<byte>>, seq<byte>)> {
    if n == 0 then Some(([], d))
    else if |d| < width then None
    else
      var size := BE(d[..width]);
      if |d| < width + size then None
      else
        var rest := Take(d[width + size..], n - 1, width);
        if rest.None? then None else Some(([d[width..width + size]] + rest.value.0, rest.value.1))
  }

  /** What a record states: the codec's profile, compatibility and level, the width of a sample's lengths, and the sets. */
  datatype Codec = Codec(
    profile: byte, compatibility: byte, level: byte, lengthSize: nat, sps: seq<seq<byte>>, pps: seq<seq<byte>>)

  /** A record read from its layout: version 1, with its reserved bits set. */
  function ReadRecord(r: seq<byte>): Option<Codec> {
    if |r| < 6 || r[0] != 1 || r[4] / 4 != 0x3f || r[5] / 32 != 7 then None
    else
      var sps := Take(r[6..], r[5] % 32, 2);
      if sps.None? || sps.value.1 == [] then None
      else
        var pps := Take(sps.value.1[1..], sps.value.1[0], 2);
        if pps.None? || pps.value.1 != [] then None
        else Some(Codec(r[1], r[2], r[3], r[4] % 4 + 1, sps.value.0, pps.value.0))
  }

  lemma Cut(x: nat, p: nat)
    requires p > 0
    ensures if x < p then x % p == x else x % p < x
  {
  }

  /** The length read in front of the first string is its own exactly when that fits the prefix. */
  lemma FirstPrefixed(nals: seq<seq<byte>>, width: nat, tail: seq<byte>) returns (n: nat)
    requires nals != [] && width > 0
    ensures var d := Prefixed(nals, width) + tail;
            && |d| >= width
            && n == BE(d[..width])
            && d[width..] == nals[0] + (Prefixed(nals[1..], width) + tail)
    ensures if |nals[0]| < Pow256(width) then n == |nals[0]| else n < |nals[0]|
  {
    hide PutBE, BE, Pow256;
    Cut(|nals[0]|, Pow256(width));
    n := |nals[0]| % Pow256(width);
    ReadBackBE(width, n);
    var prefix, rest := PutBE(width, n), Prefixed(nals[1..], width);
    hide Prefixed;
    assert prefix + nals[0] + rest + tail == prefix + (nals[0] + (rest + tail));
  }

  predicate Fits(nals: seq<seq<byte>>, width: nat) {
    forall k :: 0 <= k < |nals| ==> |nals[k]| < Pow256(width)
  }

  lemma FitsFirst(nals: seq<seq<byte>>, width: nat)
    requires nals != []
    ensures Fits(nals, width) <==> |nals[0]| < Pow256(width) && Fits(nals[1..], width)
  {
    assert forall k :: 1 <= k < |nals| ==> nals[k] == nals[1..][k - 1];
  }

  /** Splitting a sample by its lengths gives its NAL units back, in order, exactly when every length fits. */
  lemma {:induction false} SplitUndoesPrefix(nals: seq<seq<byte>>, width: nat)
    requires width > 0
    ensures Split(Prefixed(nals, width), width) == Some(nals) <==> Fits(nals, width)
  {
    hide PutBE, BE, Pow256, Fits, Prefixed, Split;
    if nals == [] {
      SplitNone(width);
    } else {
      FitsFirst(nals, width);
      SplitUndoesPrefix(nals[1..], width);
      SplitFirst(nals, width);
      assert nals == [nals[0]] + nals[1..];
      var rest := Split(Prefixed(nals[1..], width), width);
      if rest.Some? && [nals[0]] + rest.value == nals { assert rest.value == nals[1..]; }
    }
  }

  lemma SplitNone(width: nat)
    requires width > 0
    ensures Split(Prefixed([], width), width) == Some([]) && Fits([], width)
  {
  }

  lemma SplitFirst(nals: seq<seq<byte>>, width: nat)
    requires width > 0 && nals != []
    ensures var split := Split(Prefixed(nals, width), width);
            var rest := Split(Prefixed(nals[1..], width), width);
            if |nals[0]| < Pow256(width) then
              split == if rest.None? then None else Some([nals[0]] + rest.value)
            else split.Some? ==> |split.value[0]| < |nals[0]|
  {
    hide PutBE, BE, Pow256, Prefixed;
    var d := Prefixed(nals, width);
    assert d + [] == d && Prefixed(nals[1..], width) + [] == Prefixed(nals[1..], width);
    var n := FirstPrefixed(nals, width, []);
    CutAt(d, width, n, nals[0], Prefixed(nals[1..], width));
  }

  lemma CutAt(d: seq<byte>, width: nat, n: nat, first: seq<byte>, rest: seq<byte>)
    requires width <= |d| && d[width..] == first + rest && n <= |first|
    ensures |d| >= width + n && |d[width..width + n]| == n
    ensures n == |first| ==> d[width..width + n] == first && d[width + n..] == rest
  {
    assert d[width..width + n] == d[width..][..n] && d[width + n..] == d[width..][n..];
  }

  lemma {:induction false} TakeUndoesPrefix(nals: seq<seq<byte>>, width: nat, tail: seq<byte>)
    requires width > 0
    ensures Fits(nals, width) ==> Take(Prefixed(nals, width) + tail, |nals|, width) == Some((nals, tail))
    ensures !Fits(nals, width) ==>
              var t := Take(Prefixed(nals, width) + tail, |nals|, width); t.Some? ==> t.value.0 != nals
  {
    hide PutBE, BE, Pow256, Fits, Prefixed, Take;
    if nals == [] {
      TakeNone(width, tail);
    } else {
      FitsFirst(nals, width);
      TakeUndoesPrefix(nals[1..], width, tail);
      TakeFirst(nals, width, tail);
      assert nals == [nals[0]] + nals[1..];
      var rest := Take(Prefixed(nals[1..], width) + tail, |nals| - 1, width);
      if rest.Some? && [nals[0]] + rest.value.0 == nals { assert rest.value.0 == nals[1..]; }
    }
  }

  lemma TakeNone(width: nat, tail: seq<byte>)
    ensures Take(Prefixed([], width) + tail, 0, width) == Some(([], tail)) && Fits([], width)
  {
    assert [] + tail == tail;
  }

  lemma TakeFirst(nals: seq<seq<byte>>, width: nat, tail: seq<byte>)
    requires width > 0 && nals != []
    ensures var take := Take(Prefixed(nals, width) + tail, |nals|, width);
            var rest := Take(Prefixed(nals[1..], width) + tail, |nals| - 1, width);
            if |nals[0]| < Pow256(width) then
              take == if rest.None? then None else Some(([nals[0]] + rest.value.0, rest.value.1))
            else take.Some? ==> |take.value.0[0]| < |nals[0]|
  {
    hide PutBE, BE, Pow256, Prefixed;
    var d := Prefixed(nals, width) + tail;
    var n := FirstPrefixed(nals, width, tail);
    CutAt(d, width, n, nals[0], Prefixed(nals[1..], width) + tail);
  }

  /**
   A record states bytes 1 to 3 of its first SPS - profile, compatibility, level - and lengths of four bytes, whatever its
   sets are; and the sets it was built from when, and only when, every one fits a 16-bit length.
   */
  lemma RecordReadsBack(sps: seq<Nal>, pps: seq<Nal>)
    requires Declarable(sps, pps)
    ensures ReadRecord(RecordBytes(sps, pps)) == Some(Codec(sps[0][1], sps[0][2], sps[0][3], 4, sps, pps)) <==>
            Fits(sps, 2) && Fits(pps, 2)
    ensures var codec := ReadRecord(RecordBytes(sps, pps));
            codec.Some? ==>
              && codec.value.profile == sps[0][1] && codec.value.compatibility == sps[0][2]
              && codec.value.level == sps[0][3] && codec.value.lengthSize == 4
  {
    hide PutBE, BE, Pow256, Take, Prefixed, Fits;
    var r := RecordBytes(sps, pps);
    var tail := [|pps|] + Prefixed(pps, 2);
    assert r[6..] == Prefixed(sps, 2) + tail;
    assert Prefixed(pps, 2) + [] == Prefixed(pps, 2);
    TakeUndoesPrefix(sps, 2, tail);
    TakeUndoesPrefix(pps, 2, []);
    assert tail[0] == |pps| && tail[1..] == Prefixed(pps, 2);
  }

  lemma PrefixWidths()
    ensures Pow256(2) == TWO_16 && Pow256(4) == TWO_32
  {
  }

  // ----- Bounds

  /** The bytes NAL units take with the shortest start codes. */
  function Extent(nals: seq<Nal>): nat {
    if nals == [] then 0 else 3 + |nals[0]| + Extent(nals[1..])
  }

  lemma {:induction false} NalsFit(d: seq<byte>, i: nat)
    requires i <= |d|
    ensures Extent(NalsFrom(d, i)) <= |d| - i
    decreases |d| - i
  {
    hide NalsFrom, SpansFrom, NextCode, CodeLen;
    ScanStep(d, i);
    var s := NextCode(d, i);
    var h := s + CodeLen(d, s);
    if s < |d| && h < |d| {
      var e := NextCode(d, h + 1);
      CodeIsLong(d, s, i);
      if e < |d| { NalsFit(d, e); }
      ExtentOfFirst(d[h..e], if e == |d| then [] else NalsFrom(d, e));
    }
  }

  lemma CodeIsLong(d: seq<byte>, s: nat, i: nat)
    requires i <= |d| && s == NextCode(d, i) && s < |d|
    ensures CodeLen(d, s) >= 3
  {
  }

  lemma ExtentOfFirst(first: Nal, rest: seq<Nal>)
    ensures Extent([first] + rest) == 3 + |first| + Extent(rest)
  {
    assert ([first] + rest)[1..] == rest;
  }

  lemma {:induction false} FilterExtent(nals: seq<Nal>)
    ensures Extent(PictureNals(nals)) <= Extent(nals)
    ensures Extent(OfType(nals, NAL_SPS)) + Extent(OfType(nals, NAL_PPS)) <= Extent(nals)
  {
    if nals != [] {
      FilterExtent(nals[1..]);
      assert PictureNals(nals) == PictureNals(nals[1..]) || PictureNals(nals)[1..] == PictureNals(nals[1..]);
      assert OfType(nals, NAL_SPS) == OfType(nals[1..], NAL_SPS) || OfType(nals, NAL_SPS)[1..] == OfType(nals[1..], NAL_SPS);
      assert OfType(nals, NAL_PPS) == OfType(nals[1..], NAL_PPS) || OfType(nals, NAL_PPS)[1..] == OfType(nals[1..], NAL_PPS);
    }
  }

  lemma {:induction false} PrefixedExtent(nals: seq<Nal>)
    ensures 4 * |Prefixed(nals, 4)| <= 5 * Extent(nals)
    ensures |Prefixed(nals, 2)| <= Extent(nals)
    ensures forall k :: 0 <= k < |nals| ==> |nals[k]| <= Extent(nals)
  {
    if nals != [] { PrefixedExtent(nals[1..]); }
  }

  /** A sample is at most a quarter longer than its unit; a record is at most 7 bytes longer than its sets. */
  lemma SampleBound(unit: seq<byte>)
    ensures 4 * |Sample(unit)| <= 5 * |unit|
    ensures AvcC(unit).Record? ==> |AvcC(unit).bytes| <= |unit| + 7
    ensures forall k :: 0 <= k < |PictureNals(Nals(unit))| ==> |PictureNals(Nals(unit))[k]| <= |unit|
  {
    NalsFit(unit, 0);
    FilterExtent(Nals(unit));
    PrefixedExtent(PictureNals(Nals(unit)));
    PrefixedExtent(OfType(Nals(unit), NAL_SPS));
    PrefixedExtent(OfType(Nals(unit), NAL_PPS));
  }
}
