/** What the Annex-B scanner promises: printing and parsing, and the meaning of re-attached parameter sets. */
module AnnexBLaws {
  import opened Bytes
  import opened AnnexB

  // ----- Scanning a concatenation

  lemma CodeLenShift(a: seq<byte>, b: seq<byte>, i: nat)
    ensures CodeLen(a + b, |a| + i) == CodeLen(b, i)
  {
    var c := a + b;
    if i + 3 <= |b| {
      assert c[|a| + i] == b[i] && c[|a| + i + 1] == b[i + 1] && c[|a| + i + 2] == b[i + 2];
      if i + 4 <= |b| { assert c[|a| + i + 3] == b[i + 3]; }
    }
  }

  lemma {:induction false} NextCodeShift(a: seq<byte>, b: seq<byte>, i: nat)
    requires i <= |b|
    ensures NextCode(a + b, |a| + i) == |a| + NextCode(b, i)
    decreases |b| - i
  {
    if i < |b| {
      CodeLenShift(a, b, i);
      if CodeLen(b, i) == 0 { NextCodeShift(a, b, i + 1); }
    }
  }

  /** One step of the scan, with its three positions named. */
  lemma NalsStep(d: seq<byte>, i: nat, s: nat, h: nat, e: nat)
    requires i <= |d| && s == NextCode(d, i) && h == s + CodeLen(d, s)
    requires s < |d| && h < |d| && e == NextCode(d, h + 1)
    ensures NalsFrom(d, i) == [d[h..e]] + if e == |d| then [] else NalsFrom(d, e)
  {
    hide NextCode, CodeLen, NalsFrom, SpansFrom;
    ScanStep(d, i);
  }

  lemma NalsEnd(d: seq<byte>, i: nat)
    requires i <= |d| && NextCode(d, i) + CodeLen(d, NextCode(d, i)) == |d|
    ensures NalsFrom(d, i) == []
  {
  }

  /** The NAL units found from inside the second part of a buffer are those of that part. */
  lemma {:induction false} NalsShift(a: seq<byte>, b: seq<byte>, i: nat)
    requires i <= |b|
    ensures NalsFrom(a + b, |a| + i) == NalsFrom(b, i)
    decreases |b| - i
  {
    hide NalsFrom, NextCode, CodeLen;
    var c := a + b;
    var s := NextCode(b, i);
    NextCodeShift(a, b, i);
    CodeLenShift(a, b, s);
    var h := s + CodeLen(b, s);
    if s < |b| && h < |b| {
      NextCodeShift(a, b, h + 1);
      var e := NextCode(b, h + 1);
      NalsStep(b, i, s, h, e);
      NalsStep(c, |a| + i, |a| + s, |a| + h, |a| + e);
      assert c[|a| + h..|a| + e] == b[h..e];
      if e < |b| { NalsShift(a, b, e); }
    } else {
      NalsEnd(b, i);
      NalsEnd(c, |a| + i);
    }
  }

  /** A NAL unit in its own buffer: a start code, at least one byte, and no start code after the header. */
  ghost predicate OneUnit(a: seq<byte>) {
    && CodeLen(a, 0) > 0
    && CodeLen(a, 0) < |a|
    && NextCode(a, CodeLen(a, 0) + 1) == |a|
  }

  function UnitBody(a: seq<byte>): Nal
    requires CodeLen(a, 0) < |a|
  {
    a[CodeLen(a, 0)..]
  }

  /**
   Whether a unit followed by a start code of this length loses its last byte to it: a zero before a short
   code makes that code a long one that begins one byte earlier.
   */
  predicate LosesZero(nal: Nal, nextCode: nat) {
    |nal| >= 2 && nal[|nal| - 1] == 0 && nextCode == 3
  }

  function Kept(nal: Nal, nextCode: nat): (kept: Nal)
    ensures NalType(kept) == NalType(nal)
  {
    if LosesZero(nal, nextCode) then nal[..|nal| - 1] else nal
  }

  /** Where the first unit of a + b ends, when a is a unit of its own and b begins with a start code. */
  lemma FirstUnitEnd(a: seq<byte>, b: seq<byte>)
    requires OneUnit(a) && CodeLen(b, 0) > 0
    ensures CodeLen(a + b, 0) == CodeLen(a, 0)
    ensures NextCode(a + b, CodeLen(a, 0) + 1) ==
            if LosesZero(UnitBody(a), CodeLen(b, 0)) then |a| - 1 else |a|
  {
    var h := CodeLen(a, 0);
    var end := if LosesZero(UnitBody(a), CodeLen(b, 0)) then |a| - 1 else |a|;
    forall k | h + 1 <= k < end ensures CodeLen(a + b, k) == 0 {
      NoCodeBefore(a, h + 1, k);
      StraddlesOnlyAtZero(a, b, k);
    }
    if end == |a| { CodeLenShift(a, b, 0); } else { StraddlesOnlyAtZero(a, b, end); }
    NextCodeIs(a + b, h + 1, end);
  }

  /** A start code that begins in a and is not a's own ends in b, and can only take a's last zero. */
  lemma StraddlesOnlyAtZero(a: seq<byte>, b: seq<byte>, k: nat)
    requires k < |a| && CodeLen(a, k) == 0 && CodeLen(b, 0) > 0
    ensures CodeLen(a + b, k) == if k == |a| - 1 && a[k] == 0 && CodeLen(b, 0) == 3 then 4 else 0
  {
    var c := a + b;
    assert c[k] == a[k] && b[0] == 0 && b[1] == 0;
    if k + 1 < |a| { assert c[k + 1] == a[k + 1]; } else { assert c[k + 1] == b[0] && c[k + 2] == b[1] && c[k + 3] == b[2]; }
    if k + 2 < |a| { assert c[k + 2] == a[k + 2]; } else if k + 2 == |a| { assert c[k + 2] == b[0] && c[k + 3] == b[1]; }
    if k + 3 < |a| { assert c[k + 3] == a[k + 3]; } else if k + 3 == |a| { assert c[k + 3] == b[0]; }
  }

  lemma NoNals()
    ensures Nals([]) == []
  {
  }

  /** A start code inside a buffer is there whatever follows the buffer. */
  lemma CodeKept(a: seq<byte>, b: seq<byte>, k: nat)
    requires CodeLen(a, k) > 0
    ensures CodeLen(a + b, k) == CodeLen(a, k)
  {
  }

  /** Two start codes that end at the same byte begin the same units. */
  lemma SameHeader(d: seq<byte>, i: nat, j: nat)
    requires i <= |d| && j <= |d| && CodeLen(d, i) > 0 && CodeLen(d, j) > 0 && i + CodeLen(d, i) == j + CodeLen(d, j)
    ensures NalsFrom(d, i) == NalsFrom(d, j)
  {
  }

  /** Scanning a unit followed by a buffer that begins with a start code. */
  lemma ScanUnitThen(a: seq<byte>, b: seq<byte>)
    requires OneUnit(a) && CodeLen(b, 0) > 0
    ensures Nals(a + b) == [Kept(UnitBody(a), CodeLen(b, 0))] + Nals(b)
  {
    hide NalsFrom, NextCode, CodeLen;
    var c, h := a + b, CodeLen(a, 0);
    FirstUnitEnd(a, b);
    CodeAtIsNext(c, 0);
    var e := NextCode(c, h + 1);
    NalsStep(c, 0, 0, h, e);
    assert c[h..e] == Kept(UnitBody(a), CodeLen(b, 0));
    NalsShift(a, b, 0);
    CodeLenShift(a, b, 0);
    if e == |a| - 1 {
      NoCodeBefore(a, h + 1, e);
      StraddlesOnlyAtZero(a, b, e);
      SameHeader(c, e, |a|);
    }
  }

  lemma ScanUnit(a: seq<byte>)
    requires OneUnit(a)
    ensures Nals(a) == [UnitBody(a)]
  {
    CodeAtIsNext(a, 0);
    NalsStep(a, 0, 0, CodeLen(a, 0), |a|);
    assert a[CodeLen(a, 0)..|a|] == UnitBody(a);
  }

  // ----- Printing and parsing

  /** One NAL unit to print and whether its start code is the four-byte one. */
  datatype Printed = Printed(nal: Nal, long: bool)

  function Code(long: bool): seq<byte> { if long then [0, 0, 0, 1] else [0, 0, 1] }

  function Print(units: seq<Printed>): seq<byte> {
    if units == [] then [] else Code(units[0].long) + units[0].nal + Print(units[1..])
  }

  function NalsOf(units: seq<Printed>): (nals: seq<Nal>)
    ensures |nals| == |units|
    ensures forall k :: 0 <= k < |units| ==> nals[k] == units[k].nal
  {
    seq(|units|, k requires 0 <= k < |units| => units[k].nal)
  }

  /** Nothing after the header byte begins a start code. */
  predicate NoInnerCode(nal: Nal) {
    forall k :: 1 <= k < |nal| ==> CodeLen(nal, k) == 0
  }

  /**
   Exactly when a unit survives the scanner: no start code inside it, and no zero at its end that a short
   start code after it would take.
   */
  predicate Survives(units: seq<Printed>, k: nat)
    requires k < |units|
  {
    && NoInnerCode(units[k].nal)
    && (k + 1 < |units| ==> !LosesZero(units[k].nal, |Code(units[k + 1].long)|))
  }

  lemma CodeBegins(long: bool, rest: seq<byte>)
    ensures CodeLen(Code(long) + rest, 0) == |Code(long)|
  {
  }

  /** A printed unit is a unit of its own exactly when nothing inside it begins a start code. */
  lemma PrintedIsOneUnit(u: Printed)
    ensures OneUnit(Code(u.long) + u.nal) <==> NoInnerCode(u.nal)
    ensures CodeLen(Code(u.long) + u.nal, 0) == |Code(u.long)|
  {
    hide CodeLen;
    var code := Code(u.long);
    var a := code + u.nal;
    CodeBegins(u.long, u.nal);
    if NoInnerCode(u.nal) {
      forall k | |code| + 1 <= k < |a| ensures CodeLen(a, k) == 0 { CodeLenShift(code, u.nal, k - |code|); }
      NextCodeIs(a, |code| + 1, |a|);
    }
    if OneUnit(a) {
      forall k | 1 <= k < |u.nal| ensures CodeLen(u.nal, k) == 0 {
        NoCodeBefore(a, |code| + 1, |code| + k);
        CodeLenShift(code, u.nal, k);
      }
    }
  }

  /**
   Parsing undoes printing exactly when every unit survives the scanner: for all lists of NAL units and any
   mix of start codes.
   */
  lemma {:induction false} ParseUndoesPrint(units: seq<Printed>)
    ensures Nals(Print(units)) == NalsOf(units) <==> forall k :: 0 <= k < |units| ==> Survives(units, k)
  {
    hide NalsFrom, NextCode, CodeLen, NoInnerCode, Survives, Print, NalsOf;
    PrintStep(units);
    if units == [] {
      NoNals();
    } else {
      ParseUndoesPrint(units[1..]);
      SurvivorsOfRest(units);
      FirstSurvives(units);
    }
  }

  lemma PrintStep(units: seq<Printed>)
    ensures units == [] ==> Print(units) == [] && NalsOf(units) == []
    ensures units != [] ==>
              && Print(units) == Code(units[0].long) + units[0].nal + Print(units[1..])
              && NalsOf(units) == [units[0].nal] + NalsOf(units[1..])
  {
  }

  /** What the first unit printed comes to, with the rest behind it. */
  lemma FirstSurvives(units: seq<Printed>)
    requires units != []
    ensures Nals(Print(units)) == NalsOf(units) <==> Survives(units, 0) && Nals(Print(units[1..])) == NalsOf(units[1..])
  {
    hide NalsFrom, NextCode, CodeLen, Print, NalsOf;
    PrintStep(units);
    var rest := units[1..];
    var a, b := Code(units[0].long) + units[0].nal, Print(rest);
    PrintedIsOneUnit(units[0]);
    if !NoInnerCode(units[0].nal) {
      CutShort(units[0], b);
    } else if rest == [] {
      PrintStep(rest);
      NoNals();
      assert a + b == a;
      ScanUnit(a);
    } else {
      PrintStep(rest);
      assert b == Code(rest[0].long) + (rest[0].nal + Print(rest[1..]));
      CodeBegins(rest[0].long, rest[0].nal + Print(rest[1..]));
      hide NoInnerCode;
      ScanUnitThen(a, b);
      assert Nals(a + b)[0] == Kept(units[0].nal, |Code(rest[0].long)|) && Nals(a + b)[1..] == Nals(b);
      assert NalsOf(units)[0] == units[0].nal && NalsOf(units)[1..] == NalsOf(rest);
    }
  }

  lemma SurvivorsOfRest(units: seq<Printed>)
    requires units != []
    ensures (forall k :: 0 <= k < |units| ==> Survives(units, k)) <==>
            Survives(units, 0) && forall k :: 0 <= k < |units[1..]| ==> Survives(units[1..], k)
  {
    var rest := units[1..];
    forall k | 0 <= k < |rest| ensures Survives(rest, k) == Survives(units, k + 1) {}
    if Survives(units, 0) && forall k :: 0 <= k < |rest| ==> Survives(rest, k) {
      forall k | 0 <= k < |units| ensures Survives(units, k) {
        if k > 0 { assert Survives(rest, k - 1); }
      }
    }
  }

  /** A unit with a start code inside it is cut there. */
  lemma CutShort(u: Printed, b: seq<byte>)
    requires !NoInnerCode(u.nal)
    ensures Nals(Code(u.long) + u.nal + b) != [] && |Nals(Code(u.long) + u.nal + b)[0]| < |u.nal|
  {
    hide NalsFrom, CodeLen, NextCode;
    var code := Code(u.long);
    var c, h := code + u.nal + b, |code|;
    assert c == code + (u.nal + b);
    CodeBegins(u.long, u.nal + b);
    CodeAtIsNext(c, 0);
    var k :| 1 <= k < |u.nal| && CodeLen(u.nal, k) != 0;
    CodeKept(u.nal, b, k);
    CodeLenShift(code, u.nal + b, k);
    var e := NextCode(c, h + 1);
    if e > h + k { NoCodeBefore(c, h + 1, h + k); }
    NalsStep(c, 0, 0, h, e);
  }

  /**
   Units as section 7.4.1 of ITU-T H.264 makes them - no 00 00 01 inside and no zero byte at the end -
   always parse back, with every start code of either length.
   */
  lemma StandardUnitsParseBack(units: seq<Printed>)
    requires forall k :: 0 <= k < |units| ==> NoInnerCode(units[k].nal)
    requires forall k :: 0 <= k < |units| ==> units[k].nal[|units[k].nal| - 1] != 0
    ensures Nals(Print(units)) == NalsOf(units)
  {
    forall k | 0 <= k < |units| ensures Survives(units, k) {}
    ParseUndoesPrint(units);
  }

  // ----- Parameter sets

  ghost predicate HasType(nals: seq<Nal>, typ: nat) {
    exists k :: 0 <= k < |nals| && NalType(nals[k]) == typ
  }

  /** A unit of its own whose header states this type. */
  ghost predicate IsSet(a: seq<byte>, typ: nat) { OneUnit(a) && NalType(UnitBody(a)) == typ }

  lemma {:induction false} LastSetFinds(d: seq<byte>, spans: seq<Span>, typ: nat) returns (k: nat)
    requires forall i :: 0 <= i < |spans| ==> Inside(d, spans[i])
    ensures LastSet(d, spans, typ) == [] ==> forall i :: 0 <= i < |spans| ==> spans[i].typ != typ
    ensures LastSet(d, spans, typ) != [] ==>
              k < |spans| && spans[k].typ == typ && LastSet(d, spans, typ) == d[spans[k].start..spans[k].end]
  {
    k := 0;
    if spans != [] {
      var n := |spans| - 1;
      assert Inside(d, spans[n]);
      if spans[n].typ == typ { k := n; } else { k := LastSetFinds(d, spans[..n], typ); }
    }
  }

  /** A span of a buffer, taken out of it, is a unit of its own. */
  lemma SliceIsUnit(d: seq<byte>, s: Span)
    requires IsSpan(d, s)
    ensures OneUnit(d[s.start..s.end]) && UnitBody(d[s.start..s.end]) == Body(d, s)
  {
    hide NextCode, CodeLen;
    var pre, a, post := d[..s.start], d[s.start..s.end], d[s.end..];
    assert d == pre + (a + post);
    var h := CodeLen(d, s.start);
    CodeLenShift(pre, a + post, 0);
    CodeWithin(a, post, 0, h);
    forall k | h + 1 <= k < |a| ensures CodeLen(a, k) == 0 {
      NoCodeBefore(d, s.start + h + 1, s.start + k);
      CodeLenShift(pre, a + post, k);
      if CodeLen(a, k) > 0 { CodeKept(a, post, k); }
    }
    NextCodeIs(a, h + 1, |a|);
  }

  /** A start code that ends before the cut is there without what follows the cut. */
  lemma CodeWithin(a: seq<byte>, b: seq<byte>, k: nat, n: nat)
    requires n == CodeLen(a + b, k) > 0 && k + n <= |a|
    ensures CodeLen(a, k) == n
  {
    assert forall i :: 0 <= i < |a| ==> (a + b)[i] == a[i];
  }

  /** A set the scanner extracts from a buffer is a unit of its own of that type; it finds one when there is one. */
  lemma ExtractedSet(d: seq<byte>, typ: nat)
    ensures LastSet(d, Spans(d), typ) != [] <==> HasType(Nals(d), typ)
    ensures LastSet(d, Spans(d), typ) != [] ==> IsSet(LastSet(d, Spans(d), typ), typ)
  {
    hide NextCode, CodeLen, SpansFrom, NalsFrom;
    var k := LastSetFinds(d, Spans(d), typ);
    SpansMatchNals(d);
    if LastSet(d, Spans(d), typ) != [] {
      SpanAt(d, 0, k);
      SliceIsUnit(d, Spans(d)[k]);
    }
  }

  /** A buffer that begins with a unit of its own has that unit's type first, whatever follows. */
  lemma FirstType(a: seq<byte>, rest: seq<byte>)
    requires OneUnit(a)
    ensures Nals(a + rest) != [] && NalType(Nals(a + rest)[0]) == NalType(UnitBody(a))
  {
    hide NextCode, CodeLen, NalsFrom;
    CodeKept(a, rest, 0);
    CodeAtIsNext(a + rest, 0);
    var h := CodeLen(a, 0);
    NalsStep(a + rest, 0, 0, h, NextCode(a + rest, h + 1));
  }

  /** The tracked sets in front of any bytes at all are carried, even when a set ends in zero bytes. */
  lemma AttachedAreCarried(u: seq<byte>, d: seq<byte>)
    requires CarriesSets(u)
    ensures CarriesSets(Sets(u) + d)
  {
    hide NextCode, CodeLen, NalsFrom, SpansFrom;
    ExtractedSet(u, NAL_SPS);
    ExtractedSet(u, NAL_PPS);
    var c := Sets(u) + d;
    assert c == Sps(u) + (Pps(u) + d);
    CodeKept(Pps(u), d, 0);
    ScanUnitThen(Sps(u), Pps(u) + d);
    FirstType(Pps(u), d);
    assert NalType(Nals(c)[0]) == NAL_SPS && NalType(Nals(c)[1]) == NAL_PPS;
    ExtractedSet(c, NAL_SPS);
    ExtractedSet(c, NAL_PPS);
  }

  /** The guard against prepending a prefix again is never what decides: a unit that begins with the sets carries them. */
  lemma PrefixGuardUnreachable(u: seq<byte>, d: seq<byte>)
    requires CarriesSets(u) && Sets(u) <= d
    ensures CarriesSets(d)
  {
    assert d == Sets(u) + d[|Sets(u)|..];
    AttachedAreCarried(u, d[|Sets(u)|..]);
  }

  /** Prepending tracked sets to a unit that begins with a start code puts exactly two units, both sets, in front. */
  lemma ScanAttached(u: seq<byte>, d: seq<byte>) returns (sps: Nal, pps: Nal)
    requires CarriesSets(u) && CodeLen(d, 0) > 0
    ensures NalType(sps) == NAL_SPS && NalType(pps) == NAL_PPS
    ensures Nals(Sets(u) + d) == [sps, pps] + Nals(d)
  {
    hide NextCode, CodeLen, NalsFrom, SpansFrom;
    ExtractedSet(u, NAL_SPS);
    ExtractedSet(u, NAL_PPS);
    assert Sets(u) + d == Sps(u) + (Pps(u) + d);
    CodeKept(Pps(u), d, 0);
    ScanUnitThen(Sps(u), Pps(u) + d);
    ScanUnitThen(Pps(u), d);
    sps := Kept(UnitBody(Sps(u)), CodeLen(Pps(u) + d, 0));
    pps := Kept(UnitBody(Pps(u)), CodeLen(d, 0));
  }

  /**
   Re-attaching tracked sets keeps a unit's meaning: the result carries both sets, is a key frame exactly
   when the unit was, holds the same picture, and a second attach changes nothing.
   */
  lemma ReattachKeepsMeaning(u: seq<byte>, d: seq<byte>)
    requires CarriesSets(u) && CodeLen(d, 0) > 0
    ensures CarriesSets(Attach(Sets(u), d))
    ensures IsKeyFrame(Attach(Sets(u), d)) == IsKeyFrame(d)
    ensures PictureNals(Nals(Attach(Sets(u), d))) == PictureNals(Nals(d))
    ensures Attach(Sets(u), Attach(Sets(u), d)) == Attach(Sets(u), d)
  {
    hide NextCode, CodeLen, NalsFrom, SpansFrom;
    if !CarriesSets(d) {
      if Sets(u) <= d { PrefixGuardUnreachable(u, d); }
      var c := Sets(u) + d;
      AttachedAreCarried(u, d);
      var sps, pps := ScanAttached(u, d);
      SpansMatchNals(c);
      SpansMatchNals(d);
      assert Nals(c)[2..] == Nals(d) && Nals(c)[1..][1..] == Nals(d);
      assert forall k :: 0 <= k < |Nals(d)| ==> Nals(c)[k + 2] == Nals(d)[k];
      if k :| 0 <= k < |Spans(c)| && Spans(c)[k].typ == NAL_IDR { assert Spans(d)[k - 2].typ == NAL_IDR; }
      if k :| 0 <= k < |Spans(d)| && Spans(d)[k].typ == NAL_IDR { assert Spans(c)[k + 2].typ == NAL_IDR; }
    }
  }
}
