/**
 The Annex-B scanner (section B.1.1 of ITU-T H.264): NAL units found by their start codes, the parameter
 sets a unit carries, and the prepending of tracked sets to a unit that carries none.
 */
module AnnexB {
  import opened Bytes

  const NAL_IDR := 5
  const NAL_SPS := 7
  const NAL_PPS := 8

  /** One NAL unit's extent in a buffer, start code included, and its type. */
  datatype Span = Span(start: nat, end: nat, typ: nat)

  /** The length of the start code that begins at i, or 0 when none does. */
  function CodeLen(d: seq<byte>, i: nat): (n: nat)
    ensures n == 0 || n == 3 || n == 4
    ensures n > 0 ==> i + n <= |d|
  {
    if i + 3 <= |d| && d[i] == 0 && d[i + 1] == 0 then
      if d[i + 2] == 1 then 3
      else if i + 4 <= |d| && d[i + 2] == 0 && d[i + 3] == 1 then 4
      else 0
    else 0
  }

  /** The first start code at or after i, or the buffer's end. */
  function NextCode(d: seq<byte>, i: nat): (j: nat)
    requires i <= |d|
    ensures i <= j <= |d|
    ensures j < |d| ==> CodeLen(d, j) > 0
    decreases |d| - i
  {
    if i == |d| || CodeLen(d, i) > 0 then i else NextCode(d, i + 1)
  }

  lemma CodeAtIsNext(d: seq<byte>, i: nat)
    requires i <= |d| && CodeLen(d, i) > 0
    ensures NextCode(d, i) == i
  {
  }

  lemma {:induction false} NoCodeBefore(d: seq<byte>, i: nat, k: nat)
    requires i <= |d| && i <= k < NextCode(d, i)
    ensures CodeLen(d, k) == 0
    decreases k - i
  {
    if i < k { NoCodeBefore(d, i + 1, k); }
  }

  lemma {:induction false} NextCodeIs(d: seq<byte>, i: nat, j: nat)
    requires i <= j <= |d|
    requires forall k :: i <= k < j ==> CodeLen(d, k) == 0
    requires j == |d| || CodeLen(d, j) > 0
    ensures NextCode(d, i) == j
    decreases j - i
  {
    if i < j {
      assert CodeLen(d, i) == 0;
      NextCodeIs(d, i + 1, j);
    }
  }

  /** The NAL units found from i on. A start code with no byte after it ends the scan. */
  function SpansFrom(d: seq<byte>, i: nat): (spans: seq<Span>)
    requires i <= |d|
    ensures forall k :: 0 <= k < |spans| ==> Inside(d, spans[k])
    decreases |d| - i
  {
    var s := NextCode(d, i);
    var h := s + CodeLen(d, s);
    if s == |d| || h >= |d| then [] else
      var e := NextCode(d, h + 1);
      [Span(s, e, d[h] % 32)] + if e == |d| then [] else SpansFrom(d, e)
  }

  function Spans(d: seq<byte>): seq<Span> { SpansFrom(d, 0) }

  predicate Inside(d: seq<byte>, s: Span) { s.start < s.end <= |d| }

  /** What every reported span is: a start code, a header byte that gives the type, and no start code after it. */
  ghost predicate IsSpan(d: seq<byte>, s: Span) {
    && s.end <= |d|
    && CodeLen(d, s.start) > 0
    && s.start + CodeLen(d, s.start) < s.end
    && s.typ == d[s.start + CodeLen(d, s.start)] % 32
    && s.end == NextCode(d, s.start + CodeLen(d, s.start) + 1)
  }

  /** A span's bytes without its start code. */
  function Body(d: seq<byte>, s: Span): Nal
    requires IsSpan(d, s)
  {
    d[s.start + CodeLen(d, s.start)..s.end]
  }

  /** One step of the scan: the next unit, by its span and by its bytes, and the units after it. */
  lemma ScanStep(d: seq<byte>, i: nat)
    requires i <= |d|
    ensures var s := NextCode(d, i);
            var h := s + CodeLen(d, s);
            if s == |d| || h >= |d| then SpansFrom(d, i) == [] && NalsFrom(d, i) == []
            else
              var e := NextCode(d, h + 1);
              && SpansFrom(d, i) == [Span(s, e, d[h] % 32)] + (if e == |d| then [] else SpansFrom(d, e))
              && NalsFrom(d, i) == [d[h..e]] + (if e == |d| then [] else NalsFrom(d, e))
  {
    hide NextCode, CodeLen;
  }

  lemma {:induction false} SpanAt(d: seq<byte>, i: nat, k: nat)
    requires i <= |d| && k < |SpansFrom(d, i)|
    ensures IsSpan(d, SpansFrom(d, i)[k])
    ensures |NalsFrom(d, i)| == |SpansFrom(d, i)|
    ensures NalsFrom(d, i)[k] == Body(d, SpansFrom(d, i)[k])
    ensures SpansFrom(d, i)[k].typ == NalType(NalsFrom(d, i)[k])
    decreases |d| - i
  {
    hide NextCode, CodeLen, SpansFrom, NalsFrom;
    ScanStep(d, i);
    var s := NextCode(d, i);
    var h := s + CodeLen(d, s);
    assert s < |d| && h < |d|;
    var e := NextCode(d, h + 1);
    var spans, nals := if e == |d| then [] else SpansFrom(d, e), if e == |d| then [] else NalsFrom(d, e);
    assert SpansFrom(d, i) == [Span(s, e, d[h] % 32)] + spans;
    assert NalsFrom(d, i) == [d[h..e]] + nals;
    if spans != [] {
      SpanAt(d, e, if k > 0 then k - 1 else 0);
    } else if e < |d| {
      ScanStep(d, e);
    }
    assert |nals| == |spans|;
    if k > 0 {
      assert SpansFrom(d, i)[k] == spans[k - 1] && NalsFrom(d, i)[k] == nals[k - 1];
    }
  }

  /** A NAL unit: at least its header byte. */
  type Nal = n: seq<byte> | |n| > 0 witness [0]

  /** The NAL units of a buffer, from i on. */
  function NalsFrom(d: seq<byte>, i: nat): seq<Nal>
    requires i <= |d|
    decreases |d| - i
  {
    var s := NextCode(d, i);
    var h := s + CodeLen(d, s);
    if s == |d| || h >= |d| then [] else
      var e := NextCode(d, h + 1);
      [d[h..e]] + if e == |d| then [] else NalsFrom(d, e)
  }

  function Nals(d: seq<byte>): seq<Nal> { NalsFrom(d, 0) }

  function NalType(nal: Nal): nat { nal[0] % 32 }

  lemma SpansMatchNals(d: seq<byte>)
    ensures |Spans(d)| == |Nals(d)|
    ensures forall k :: 0 <= k < |Spans(d)| ==> Spans(d)[k].typ == NalType(Nals(d)[k])
  {
    hide NextCode, CodeLen;
    forall k | 0 <= k < |Spans(d)| ensures k < |Nals(d)| && Spans(d)[k].typ == NalType(Nals(d)[k]) { SpanAt(d, 0, k); }
    if Spans(d) != [] { SpanAt(d, 0, 0); } else { assert Nals(d) == []; }
  }

  /**
   The spans of any buffer tile it: they begin at the first start code, each ends where the next begins, and
   the last ends at the buffer's end or at a final start code that has no byte after it.
   */
  ghost predicate Tiles(d: seq<byte>, i: nat, spans: seq<Span>)
    requires i <= |d|
    decreases |spans|
  {
    if spans == [] then i == |d| || i + CodeLen(d, i) == |d|
    else spans[0].start == i < spans[0].end <= |d| && Tiles(d, spans[0].end, spans[1..])
  }

  lemma {:induction false} SpansTile(d: seq<byte>, i: nat)
    requires i <= |d|
    ensures Tiles(d, NextCode(d, i), SpansFrom(d, i))
    decreases |d| - i
  {
    hide SpansFrom, NalsFrom, NextCode, CodeLen;
    ScanStep(d, i);
    var s := NextCode(d, i);
    var h := s + CodeLen(d, s);
    if s < |d| && h < |d| {
      var e := NextCode(d, h + 1);
      assert SpansFrom(d, i)[1..] == if e == |d| then [] else SpansFrom(d, e);
      if e < |d| {
        SpansTile(d, e);
        CodeAtIsNext(d, e);
      }
    }
  }

  predicate IsParameterSet(nal: Nal) { NalType(nal) == NAL_SPS || NalType(nal) == NAL_PPS }

  /** The NAL units a sample keeps: everything but the parameter sets. */
  function PictureNals(nals: seq<Nal>): seq<Nal> {
    if nals == [] then []
    else (if IsParameterSet(nals[0]) then [] else [nals[0]]) + PictureNals(nals[1..])
  }

  /** The NAL units of one type, in order. */
  function OfType(nals: seq<Nal>, typ: nat): seq<Nal> {
    if nals == [] then []
    else (if NalType(nals[0]) == typ then [nals[0]] else []) + OfType(nals[1..], typ)
  }

  // ----- The scanner's loops

  /** The scan for the next start code: the probe loop. */
  method FindNextCode(data: seq<byte>, from: nat) returns (end: nat)
    requires from <= |data|
    ensures end == NextCode(data, from)
  {
    var probe := from;
    while probe + 3 <= |data|
      invariant from <= probe <= |data|
      invariant NextCode(data, from) == NextCode(data, probe)
    {
      if CodeLen(data, probe) > 0 {
        return probe;
      }
      probe := probe + 1;
    }
    NoRoomForCode(data, probe);
    return |data|;
  }

  lemma {:induction false} SkipByte(d: seq<byte>, i: nat)
    requires i < |d| && CodeLen(d, i) == 0
    ensures SpansFrom(d, i) == SpansFrom(d, i + 1)
  {
    hide SpansFrom, NalsFrom, NextCode, CodeLen;
    NextSkips(d, i);
    ScanStep(d, i);
    ScanStep(d, i + 1);
    var s := NextCode(d, i);
    var h := s + CodeLen(d, s);
    if s == |d| || h >= |d| {
      assert SpansFrom(d, i) == [] == SpansFrom(d, i + 1);
    } else {
      var e := NextCode(d, h + 1);
      assert SpansFrom(d, i) == [Span(s, e, d[h] % 32)] + (if e == |d| then [] else SpansFrom(d, e));
    }
  }

  lemma NextSkips(d: seq<byte>, i: nat)
    requires i < |d| && CodeLen(d, i) == 0
    ensures NextCode(d, i) == NextCode(d, i + 1)
  {
    hide CodeLen;
  }

  /** The scan at a start code, and at the end. */
  lemma FoundAt(d: seq<byte>, i: nat, spans: seq<Span>)
    requires i < |d| && CodeLen(d, i) > 0
    ensures var h := i + CodeLen(d, i);
            if h >= |d| then spans + SpansFrom(d, i) == spans
            else
              var e := NextCode(d, h + 1);
              && spans + SpansFrom(d, i) == spans + [Span(i, e, d[h] % 32)] + SpansFrom(d, e)
              && (e == |d| ==> SpansFrom(d, e) == [])
  {
    assert NextCode(d, i) == i;
    hide SpansFrom, NalsFrom, NextCode, CodeLen;
    ScanStep(d, i);
    ScanStep(d, |d|);
    var h := i + CodeLen(d, i);
    if h >= |d| {
      assert spans + [] == spans;
    } else {
      var e := NextCode(d, h + 1);
      Regroup(spans, Span(i, e, d[h] % 32), SpansFrom(d, e));
    }
  }

  lemma Regroup(spans: seq<Span>, next: Span, rest: seq<Span>)
    ensures spans + ([next] + rest) == spans + [next] + rest
  {
  }

  method NalSpans(data: seq<byte>) returns (spans: seq<Span>)
    ensures spans == Spans(data)
  {
    hide SpansFrom, NextCode, CodeLen;
    spans := [];
    var index := 0;
    while index + 3 <= |data|
      invariant index <= |data|
      invariant spans + SpansFrom(data, index) == Spans(data)
      decreases |data| - index
    {
      var startCode := CodeLen(data, index);
      if startCode == 0 {
        SkipByte(data, index);
        index := index + 1;
        continue;
      }
      FoundAt(data, index, spans);
      var header := index + startCode;
      if header >= |data| {
        return;
      }
      var end := FindNextCode(data, header + 1);
      spans := spans + [Span(index, end, data[header] % 32)];
      if end == |data| {
        return;
      }
      index := end;
    }
    NoneFrom(data, index);
  }

  lemma NoneFrom(d: seq<byte>, i: nat)
    requires i <= |d| < i + 3
    ensures SpansFrom(d, i) == []
  {
    NoRoomForCode(d, i);
  }

  lemma {:induction false} NoRoomForCode(d: seq<byte>, i: nat)
    requires i <= |d| < i + 3
    ensures NextCode(d, i) == |d|
  {
    assert CodeLen(d, NextCode(d, i)) == 0;
  }

  /** Skips the zeros and the one of a span's start code. */
  method NalPayload(unit: seq<byte>, span: Span) returns (nal: seq<byte>)
    requires IsSpan(unit, span)
    ensures nal == Body(unit, span)
  {
    var start := span.start;
    var header := span.start + CodeLen(unit, span.start);
    while start < span.end && unit[start] == 0
      invariant span.start <= start <= header - 1
    {
      start := start + 1;
    }
    if start < span.end && unit[start] == 1 {
      start := start + 1;
    }
    nal := unit[start..span.end];
  }

  /** The bytes of the last span of a type, start code included; empty when there is none. */
  function LastSet(d: seq<byte>, spans: seq<Span>, typ: nat): (set': seq<byte>)
    requires forall k :: 0 <= k < |spans| ==> Inside(d, spans[k])
  {
    if spans == [] then []
    else
      var last := spans[|spans| - 1];
      assert Inside(d, last);
      if last.typ == typ then d[last.start..last.end] else LastSet(d, spans[..|spans| - 1], typ)
  }

  function Sps(d: seq<byte>): seq<byte> { LastSet(d, Spans(d), NAL_SPS) }
  function Pps(d: seq<byte>): seq<byte> { LastSet(d, Spans(d), NAL_PPS) }

  /** Both sets in the order they are stored: SPS, then PPS. */
  function Sets(d: seq<byte>): seq<byte> { Sps(d) + Pps(d) }

  predicate CarriesSets(d: seq<byte>) { Sps(d) != [] && Pps(d) != [] }

  predicate IsKeyFrame(d: seq<byte>) {
    exists k :: 0 <= k < |Spans(d)| && Spans(d)[k].typ == NAL_IDR
  }

  method ParameterSets(data: seq<byte>) returns (sps: seq<byte>, pps: seq<byte>)
    ensures sps == Sps(data) && pps == Pps(data)
  {
    sps, pps := [], [];
    var spans := NalSpans(data);
    for i := 0 to |spans|
      invariant sps == LastSet(data, spans[..i], NAL_SPS)
      invariant pps == LastSet(data, spans[..i], NAL_PPS)
    {
      assert spans[..i + 1][..i] == spans[..i];
      if spans[i].typ == NAL_SPS {
        sps := data[spans[i].start..spans[i].end];
      } else if spans[i].typ == NAL_PPS {
        pps := data[spans[i].start..spans[i].end];
      }
    }
    assert spans[..|spans|] == spans;
  }

  lemma KeyFrameHasSlice(d: seq<byte>)
    ensures IsKeyFrame(d) <==> exists k :: 0 <= k < |Nals(d)| && Nals(d)[k][0] % 32 == 5
  {
    SpansMatchNals(d);
    hide NalsFrom, SpansFrom, NextCode, CodeLen;
    forall k | 0 <= k < |Spans(d)| ensures Spans(d)[k].typ == Nals(d)[k][0] % 32 {
      SpanAt(d, 0, k);
    }
  }

  method KeyFrame(data: seq<byte>) returns (key: bool)
    ensures key == IsKeyFrame(data)
    ensures key <==> exists k :: 0 <= k < |Nals(data)| && Nals(data)[k][0] % 32 == 5
  {
    KeyFrameHasSlice(data);
    hide SpansFrom, NalsFrom, Nals;
    var spans := NalSpans(data);
    for i := 0 to |spans|
      invariant forall k :: 0 <= k < i ==> spans[k].typ != NAL_IDR
    {
      if spans[i].typ == NAL_IDR {
        return true;
      }
    }
    return false;
  }

  /** Prepends tracked sets to a unit that does not carry both already. */
  function Attach(params: seq<byte>, d: seq<byte>): seq<byte> {
    if params == [] || CarriesSets(d) then d
    else if params <= d then d
    else params + d
  }
}
