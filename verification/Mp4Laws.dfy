/** Printed boxes parse back: children, fragments, declarations. */
module Mp4Laws {
  import opened Bytes
  import opened Wrappers
  import opened Mp4Boxes
  import opened Mp4Reader

  /** Looking for a child steps over a printed box, or finds it. */
  lemma FindChild(b: seq<byte>, typ: uint32, rest: seq<byte>, wanted: nat)
    requires IsBox(b, typ) && |b| < TWO_32
    ensures Child(b + rest, wanted) == if typ == wanted then Some(b[8..]) else Child(rest, wanted)
  {
    BoxReadsBack(b, typ, rest);
  }

  lemma FindOnlyChild(b: seq<byte>, typ: uint32)
    requires IsBox(b, typ) && |b| < TWO_32
    ensures Child(b, typ) == Some(b[8..])
  {
    FindChild(b, typ, [], typ);
    assert b + [] == b;
  }

  lemma Half(v: nat)
    requires v < TWO_16
    ensures BE(U16(v)) == v
  {
    assert Pow256(2) == TWO_16;
    ReadBackBE(2, v);
  }

  lemma Three(v: nat)
    requires v < 0x100_0000
    ensures BE(PutBE(3, v)) == v
  {
    assert Pow256(3) == 0x100_0000;
    ReadBackBE(3, v);
  }

  lemma Long(v: uint64)
    ensures BE(U64(v)) == v
  {
    assert Pow256(8) == TWO_64;
    ReadBackBE(8, v);
  }

  function TrafPayload(time: uint64, duration: uint32, key: bool, size: nat): seq<byte> {
    FullBox(TFHD, 0, DEFAULT_BASE_IS_MOOF, U32(TRACK_ID))
    + (FullBox(TFDT, 1, 0, U64(time)) + FullBox(TRUN, 0, TRUN_FLAGS, TrunFields(duration, key, size)))
  }

  function TrunFields(duration: uint32, key: bool, size: nat): (s: seq<byte>)
    ensures |s| == 20
  {
    U32(1) + U32(108) + U32(duration) + U32(size % TWO_32) + U32(if key then FLAGS_KEY else FLAGS_DELTA)
  }

  function MoofPayload(sequence: uint32, time: uint64, duration: uint32, key: bool, size: nat): seq<byte> {
    FullBox(MFHD, 0, 0, U32(sequence)) + Box(TRAF, TrafPayload(time, duration, key, size))
  }

  lemma FragmentIsBox(sequence: uint32, time: uint64, duration: uint32, key: bool, size: nat)
    ensures Fragment(sequence, time, duration, key, size) == Box(MOOF, MoofPayload(sequence, time, duration, key, size))
    ensures |MoofPayload(sequence, time, duration, key, size)| == 92
    ensures |TrafPayload(time, duration, key, size)| == 68
  {
    hide PutBE, Box, FullBox;
  }

  lemma TfhdFields(p: seq<byte>)
    requires p == [0] + PutBE(3, DEFAULT_BASE_IS_MOOF) + U32(TRACK_ID)
    ensures |p| == 8 && BE(p[1..4]) == DEFAULT_BASE_IS_MOOF && BE(p[4..8]) == TRACK_ID
  {
    hide PutBE, BE;
    assert p[1..4] == PutBE(3, DEFAULT_BASE_IS_MOOF) && p[4..8] == U32(TRACK_ID);
    Three(DEFAULT_BASE_IS_MOOF);
    Word(TRACK_ID);
  }

  lemma TfdtFields(p: seq<byte>, time: uint64)
    requires p == [1] + PutBE(3, 0) + U64(time)
    ensures |p| == 12 && p[0] == 1 && BE(p[4..12]) == time
  {
    hide PutBE, BE;
    assert p[4..12] == U64(time);
    Long(time);
  }

  lemma TrunReadsBack(p: seq<byte>, duration: uint32, key: bool, size: uint32)
    requires p == [0] + PutBE(3, TRUN_FLAGS) + TrunFields(duration, key, size)
    ensures |p| == 24 && BE(p[1..4]) == TRUN_FLAGS && BE(p[4..8]) == 1 && BE(p[8..12]) == 108
    ensures BE(p[12..16]) == duration && BE(p[16..20]) == size
    ensures (BE(p[20..24]) / 0x1_0000 % 2 == 0) == key
    ensures BE(p[20..24]) / 0x100_0000 % 4 == if key then 2 else 1
  {
    hide PutBE, BE;
    var flags := if key then FLAGS_KEY else FLAGS_DELTA;
    assert p[1..4] == PutBE(3, TRUN_FLAGS);
    assert p[4..8] == U32(1) && p[8..12] == U32(108) && p[12..16] == U32(duration);
    assert p[16..20] == U32(size % TWO_32) && p[20..24] == U32(flags);
    Three(TRUN_FLAGS);
    Word(1);
    Word(108);
    Word(duration);
    Word(size);
    Word(flags);
  }

  lemma TrafReadsBack(time: uint64, duration: uint32, key: bool, size: uint32)
    ensures Child(TrafPayload(time, duration, key, size), TFHD) == Some([0] + PutBE(3, DEFAULT_BASE_IS_MOOF) + U32(TRACK_ID))
    ensures Child(TrafPayload(time, duration, key, size), TFDT) == Some([1] + PutBE(3, 0) + U64(time))
    ensures Child(TrafPayload(time, duration, key, size), TRUN) ==
            Some([0] + PutBE(3, TRUN_FLAGS) + TrunFields(duration, key, size))
  {
    hide PutBE, BE, Child;
    var fields := TrunFields(duration, key, size);
    var trun := FullBox(TRUN, 0, TRUN_FLAGS, fields);
    var tfdt := FullBox(TFDT, 1, 0, U64(time));
    FindChild(FullBox(TFHD, 0, DEFAULT_BASE_IS_MOOF, U32(TRACK_ID)), TFHD, tfdt + trun, TFHD);
    FindChild(FullBox(TFHD, 0, DEFAULT_BASE_IS_MOOF, U32(TRACK_ID)), TFHD, tfdt + trun, TFDT);
    FindChild(FullBox(TFHD, 0, DEFAULT_BASE_IS_MOOF, U32(TRACK_ID)), TFHD, tfdt + trun, TRUN);
    FindChild(FullBox(TFDT, 1, 0, U64(time)), TFDT, trun, TFDT);
    FindChild(FullBox(TFDT, 1, 0, U64(time)), TFDT, trun, TRUN);
    FindOnlyChild(trun, TRUN);
  }

  /** A fragment reads back as exactly what it was printed from. */
  lemma FragmentReadsBack(sequence: uint32, time: uint64, duration: uint32, key: bool, size: uint32)
    ensures ReadFragment(MoofPayload(sequence, time, duration, key, size)) ==
            Some(FragmentInfo(sequence, TRACK_ID, time, 108, duration, size, key))
  {
    hide PutBE, BE, Child;
    var traf := TrafPayload(time, duration, key, size);
    FragmentIsBox(sequence, time, duration, key, size);
    FindChild(FullBox(MFHD, 0, 0, U32(sequence)), MFHD, Box(TRAF, traf), MFHD);
    FindChild(FullBox(MFHD, 0, 0, U32(sequence)), MFHD, Box(TRAF, traf), TRAF);
    FindOnlyChild(Box(TRAF, traf), TRAF);
    var mfhd := [0] + PutBE(3, 0) + U32(sequence);
    assert mfhd[4..8] == U32(sequence);
    Word(sequence);
    TrafReadsBack(time, duration, key, size);
    TfhdFields([0] + PutBE(3, DEFAULT_BASE_IS_MOOF) + U32(TRACK_ID));
    TfdtFields([1] + PutBE(3, 0) + U64(time), time);
    TrunReadsBack([0] + PutBE(3, TRUN_FLAGS) + TrunFields(duration, key, size), duration, key, size);
  }

  // ----- The declaration

  /** The largest codec record a movie box can hold and still state its own size in 32 bits. */
  const MAX_RECORD := TWO_32 - 585

  lemma MoovSize(width: nat, height: nat, avcC: seq<byte>)
    ensures |Box(MOOV, MoovPayload(width, height, avcC))| < TWO_32 <==> |avcC| <= MAX_RECORD
  {
    hide PutBE;
  }

  lemma EntryReadsBack(width: nat, height: nat, avcC: seq<byte>) returns (entry: seq<byte>)
    requires |avcC| <= MAX_RECORD
    ensures entry == SampleEntryHead(width, height) + Box(AVCC, avcC)
    ensures Child(Box(AVC1, entry), AVC1) == Some(entry) && Child(entry[78..], AVCC) == Some(avcC)
    ensures BE(entry[24..26]) == width % TWO_16 && BE(entry[26..28]) == height % TWO_16
  {
    hide PutBE, BE, Child;
    entry := SampleEntryHead(width, height) + Box(AVCC, avcC);
    FindOnlyChild(Box(AVC1, entry), AVC1);
    FindOnlyChild(Box(AVCC, avcC), AVCC);
    assert entry[78..] == Box(AVCC, avcC);
    assert entry[24..26] == U16(width % TWO_16) && entry[26..28] == U16(height % TWO_16);
    Half(width % TWO_16);
    Half(height % TWO_16);
  }

  /** The declaration a printed movie box states is the size, cut to 16 bits each way, and the record, unchanged. */
  lemma DeclarationReadsBack(width: nat, height: nat, avcC: seq<byte>)
    requires |avcC| <= MAX_RECORD
    ensures ReadConfig(MoovPayload(width, height, avcC)) == Some(Config(width % TWO_16, height % TWO_16, avcC))
  {
    hide PutBE, BE, Child, Box, FullBox;
    var entry := EntryReadsBack(width, height, avcC);
    var trak, mdia, minf := Trak(width, height, avcC), Mdia(width, height, avcC), Minf(width, height, avcC);
    var stbl, stsd := Stbl(width, height, avcC), Stsd(width, height, avcC);
    FindChild(Mvhd(), MVHD, trak + Mvex(), TRAK);
    FindChild(trak, TRAK, Mvex(), TRAK);
    FindChild(Tkhd(width, height), TKHD, mdia, MDIA);
    FindOnlyChild(mdia, MDIA);
    FindChild(Mdhd(), MDHD, Hdlr() + minf, MINF);
    FindChild(Hdlr(), HDLR, minf, MINF);
    FindOnlyChild(minf, MINF);
    FindChild(Vmhd(), VMHD, Dinf() + stbl, STBL);
    FindChild(Dinf(), DINF, stbl, STBL);
    FindOnlyChild(stbl, STBL);
    FindChild(stsd, STSD, SampleTables(), STSD);
    assert stsd[8..][8..] == Box(AVC1, entry);
  }

  // ----- The rest of the movie box

  /** Where the boxes of a printed declaration are. */
  lemma Layout(width: nat, height: nat, avcC: seq<byte>)
    requires |avcC| <= MAX_RECORD
    ensures var moov := MoovPayload(width, height, avcC);
            && Child(moov, MVHD) == Some(Mvhd()[8..])
            && Child(moov, TRAK) == Some(Trak(width, height, avcC)[8..])
            && Child(moov, MVEX) == Some(Mvex()[8..])
  {
    hide PutBE, BE, Child, Box, FullBox;
    var trak := Trak(width, height, avcC);
    FindChild(Mvhd(), MVHD, trak + Mvex(), MVHD);
    FindChild(Mvhd(), MVHD, trak + Mvex(), TRAK);
    FindChild(Mvhd(), MVHD, trak + Mvex(), MVEX);
    FindChild(trak, TRAK, Mvex(), TRAK);
    FindChild(trak, TRAK, Mvex(), MVEX);
    FindOnlyChild(Mvex(), MVEX);
  }

  lemma TrakLayout(width: nat, height: nat, avcC: seq<byte>)
    requires |avcC| <= MAX_RECORD
    ensures var trak, mdia := Trak(width, height, avcC)[8..], Mdia(width, height, avcC)[8..];
            && Child(trak, TKHD) == Some(Tkhd(width, height)[8..]) && Child(trak, MDIA) == Some(mdia)
            && Child(mdia, MDHD) == Some(Mdhd()[8..]) && Child(mdia, HDLR) == Some(Hdlr()[8..])
            && Child(mdia, MINF) == Some(Minf(width, height, avcC)[8..])
  {
    hide PutBE, BE, Child, Box, FullBox;
    var mdia, minf := Mdia(width, height, avcC), Minf(width, height, avcC);
    FindChild(Tkhd(width, height), TKHD, mdia, TKHD);
    FindChild(Tkhd(width, height), TKHD, mdia, MDIA);
    FindOnlyChild(mdia, MDIA);
    FindChild(Mdhd(), MDHD, Hdlr() + minf, MDHD);
    FindChild(Mdhd(), MDHD, Hdlr() + minf, HDLR);
    FindChild(Mdhd(), MDHD, Hdlr() + minf, MINF);
    FindChild(Hdlr(), HDLR, minf, HDLR);
    FindChild(Hdlr(), HDLR, minf, MINF);
    FindOnlyChild(minf, MINF);
  }

  lemma MinfLayout(width: nat, height: nat, avcC: seq<byte>)
    requires |avcC| <= MAX_RECORD
    ensures var minf, stbl := Minf(width, height, avcC)[8..], Stbl(width, height, avcC)[8..];
            && Child(minf, VMHD) == Some(Vmhd()[8..]) && Child(minf, DINF) == Some(Dinf()[8..]) && Child(minf, STBL) == Some(stbl)
            && Child(Dinf()[8..], DREF) == Some(FullBox(DREF, 0, 0, U32(1) + FullBox(URL, 0, 1, []))[8..])
            && Child(stbl, STSD) == Some(Stsd(width, height, avcC)[8..])
  {
    hide PutBE, BE, Child, FullBox;
    var stbl := Stbl(width, height, avcC);
    FindChild(Vmhd(), VMHD, Dinf() + stbl, VMHD);
    FindChild(Vmhd(), VMHD, Dinf() + stbl, DINF);
    FindChild(Vmhd(), VMHD, Dinf() + stbl, STBL);
    FindChild(Dinf(), DINF, stbl, DINF);
    FindChild(Dinf(), DINF, stbl, STBL);
    FindOnlyChild(stbl, STBL);
    FindOnlyChild(FullBox(DREF, 0, 0, U32(1) + FullBox(URL, 0, 1, [])), DREF);
    FindChild(Stsd(width, height, avcC), STSD, SampleTables(), STSD);
  }

  lemma TablesLayout(width: nat, height: nat, avcC: seq<byte>)
    requires |avcC| <= MAX_RECORD
    ensures var stbl := Stbl(width, height, avcC)[8..];
            && Child(stbl, STTS) == Some(FullBox(STTS, 0, 0, U32(0))[8..])
            && Child(stbl, STSC) == Some(FullBox(STSC, 0, 0, U32(0))[8..])
            && Child(stbl, STSZ) == Some(FullBox(STSZ, 0, 0, U32(0) + U32(0))[8..])
            && Child(stbl, STCO) == Some(FullBox(STCO, 0, 0, U32(0))[8..])
  {
    hide PutBE, BE, Child, Box, FullBox;
    var stsd, stts, stsc := Stsd(width, height, avcC), FullBox(STTS, 0, 0, U32(0)), FullBox(STSC, 0, 0, U32(0));
    var stsz, stco := FullBox(STSZ, 0, 0, U32(0) + U32(0)), FullBox(STCO, 0, 0, U32(0));
    assert SampleTables() == stts + (stsc + (stsz + stco));
    FindChild(stsd, STSD, SampleTables(), STTS);
    FindChild(stsd, STSD, SampleTables(), STSC);
    FindChild(stsd, STSD, SampleTables(), STSZ);
    FindChild(stsd, STSD, SampleTables(), STCO);
    FindChild(stts, STTS, stsc + (stsz + stco), STTS);
    FindChild(stts, STTS, stsc + (stsz + stco), STSC);
    FindChild(stts, STTS, stsc + (stsz + stco), STSZ);
    FindChild(stts, STTS, stsc + (stsz + stco), STCO);
    FindChild(stsc, STSC, stsz + stco, STSC);
    FindChild(stsc, STSC, stsz + stco, STSZ);
    FindChild(stsc, STSC, stsz + stco, STCO);
    FindChild(stsz, STSZ, stco, STSZ);
    FindChild(stsz, STSZ, stco, STCO);
    FindOnlyChild(stco, STCO);
  }

  lemma WordAt(d: seq<byte>, at: nat, v: uint32)
    requires at + 4 <= |d| && d[at..at + 4] == U32(v)
    ensures Word4(d, at) == v
  {
    hide PutBE, BE;
    Word(v);
  }

  lemma MvhdReadsBack(d: seq<byte>)
    requires d == Mvhd()[8..]
    ensures |d| == 100 && d[0] == 0 && Word4(d, 12) == TIMESCALE && Word4(d, 20) == UNITY && Word4(d, 96) == 2
  {
    hide PutBE, BE, Matrix;
    assert d[12..16] == U32(TIMESCALE) && d[20..24] == U32(UNITY) && d[96..100] == U32(2);
    WordAt(d, 12, TIMESCALE);
    WordAt(d, 20, UNITY);
    WordAt(d, 96, 2);
  }

  lemma TkhdParts(d: seq<byte>, head: seq<byte>, tail: seq<byte>)
    requires |head| == 36 && |tail| == 44 && d == [0] + PutBE(3, 3) + (head + tail)
    ensures |d| == 84 && d[0] == 0 && d[1..4] == PutBE(3, 3) && d[12..16] == head[8..12]
    ensures d[40..76] == tail[..36] && d[76..80] == tail[36..40] && d[80..84] == tail[40..44]
  {
    hide PutBE;
    assert |[0] + PutBE(3, 3)| == 4;
    assert d[4..40] == head && d[40..] == tail;
    assert d[1..4] == PutBE(3, 3);
    assert d[12..16] == d[4..40][8..12];
    assert d[76..80] == d[40..][36..40] && d[80..84] == d[40..][40..44];
  }

  lemma TkhdReadsBack(d: seq<byte>, width: nat, height: nat)
    requires d == Tkhd(width, height)[8..]
    ensures |d| == 84 && d[0] == 0 && BE(d[1..4]) == 3 && Word4(d, 12) == TRACK_ID
    ensures Word4(d, 76) == width % TWO_16 * TWO_16 && Word4(d, 80) == height % TWO_16 * TWO_16
    ensures d[40..76] == Matrix()
  {
    hide PutBE, BE, Matrix;
    var w, h := U32(width % TWO_16 * TWO_16), U32(height % TWO_16 * TWO_16);
    var head := U32(0) + U32(0) + U32(TRACK_ID) + U32(0) + U32(0) + U32(0) + U32(0) + U16(0) + U16(0) + U16(0) + U16(0);
    var tail := Matrix() + w + h;
    assert |head| == 36 && head[8..12] == U32(TRACK_ID) && tail[36..40] == w && tail[40..44] == h && tail[..36] == Matrix();
    TkhdParts(d, head, tail);
    Three(3);
    WordAt(d, 12, TRACK_ID);
    WordAt(d, 76, width % TWO_16 * TWO_16);
    WordAt(d, 80, height % TWO_16 * TWO_16);
  }

  lemma MdhdReadsBack(d: seq<byte>)
    requires d == Mdhd()[8..]
    ensures |d| == 24 && d[0] == 0 && Word4(d, 12) == TIMESCALE
  {
    hide PutBE, BE;
    assert d[12..16] == U32(TIMESCALE);
    WordAt(d, 12, TIMESCALE);
  }

  lemma HdlrReadsBack(d: seq<byte>)
    requires d == Hdlr()[8..]
    ensures |d| == 30 && d[0] == 0 && Word4(d, 8) == VIDE
  {
    hide PutBE, BE;
    assert d[8..12] == U32(VIDE);
    WordAt(d, 8, VIDE);
  }

  lemma TrexReadsBack(d: seq<byte>)
    requires d == Mvex()[8..]
    ensures var trex := Child(d, TREX);
            trex.Some? && |trex.value| == 24 && trex.value[0] == 0 && Word4(trex.value, 4) == TRACK_ID && Word4(trex.value, 8) == 1
  {
    hide PutBE, BE, Child;
    var b := FullBox(TREX, 0, 0, U32(TRACK_ID) + U32(1) + U32(0) + U32(0) + U32(0));
    FindOnlyChild(b, TREX);
    assert b[8..][4..8] == U32(TRACK_ID) && b[8..][8..12] == U32(1);
    WordAt(b[8..], 4, TRACK_ID);
    WordAt(b[8..], 8, 1);
  }

  lemma VmhdReadsBack(d: seq<byte>)
    requires d == Vmhd()[8..]
    ensures |d| == 12 && d[0] == 0 && BE(d[1..4]) == 1
  {
    hide PutBE, BE;
    assert d[1..4] == PutBE(3, 1);
    Three(1);
  }

  lemma DrefReadsBack(d: seq<byte>)
    requires d == FullBox(DREF, 0, 0, U32(1) + FullBox(URL, 0, 1, []))[8..]
    ensures |d| == 20 && d[0] == 0 && Word4(d, 4) == 1
    ensures var url := Child(d[8..], URL); url.Some? && |url.value| == 4 && BE(url.value[1..4]) == 1
  {
    hide PutBE, BE, Child;
    var url := FullBox(URL, 0, 1, []);
    assert d[4..8] == U32(1) && d[8..] == url;
    WordAt(d, 4, 1);
    FindOnlyChild(url, URL);
    assert url[8..][1..4] == PutBE(3, 1);
    Three(1);
  }

  lemma StsdReadsBack(d: seq<byte>, width: nat, height: nat, avcC: seq<byte>)
    requires |avcC| <= MAX_RECORD && d == Stsd(width, height, avcC)[8..]
    ensures |d| >= 8 && d[0] == 0 && Word4(d, 4) == 1
    ensures var entry := Child(d[8..], AVC1); entry.Some? && |entry.value| >= 8 && BE(entry.value[6..8]) == 1
  {
    hide PutBE, BE, Child;
    var entry := EntryReadsBack(width, height, avcC);
    assert d[4..8] == U32(1) && d[8..] == Box(AVC1, entry);
    WordAt(d, 4, 1);
    assert entry[6..8] == U16(1);
    Half(1);
  }

  lemma TableReadsBack(d: seq<byte>, typ: uint32)
    requires d == FullBox(typ, 0, 0, U32(0))[8..]
    ensures |d| == 8 && d[0] == 0 && Word4(d, 4) == 0
  {
    hide PutBE, BE;
    assert d[4..8] == U32(0);
    WordAt(d, 4, 0);
  }

  lemma SizesReadBack(d: seq<byte>)
    requires d == FullBox(STSZ, 0, 0, U32(0) + U32(0))[8..]
    ensures |d| == 12 && d[0] == 0 && Word4(d, 4) == 0 && Word4(d, 8) == 0
  {
    hide PutBE, BE;
    assert d[4..8] == U32(0) && d[8..12] == U32(0);
    WordAt(d, 4, 0);
    WordAt(d, 8, 0);
  }

  /** The presentation is not turned nor scaled: the matrix is the identity, in the fixed point it is written in. */
  const IDENTITY := [UNITY, 0, 0, 0, UNITY, 0, 0, 0, 0x40000000]

  lemma MatrixReadsBack(d: seq<byte>, at: nat)
    requires at + 36 <= |d| && d[at..at + 36] == Matrix()
    ensures Words(d, at, 9) == IDENTITY
  {
    hide PutBE, BE, Words;
    var m := d[at..at + 36];
    MatrixWords(m);
    WordWithin(d, at, 0, UNITY);
    WordWithin(d, at, 4, 0);
    WordWithin(d, at, 8, 0);
    WordWithin(d, at, 12, 0);
    WordWithin(d, at, 16, UNITY);
    WordWithin(d, at, 20, 0);
    WordWithin(d, at, 24, 0);
    WordWithin(d, at, 28, 0);
    WordWithin(d, at, 32, 0x40000000);
    hide Word4, Matrix;
    NineWords(d, at);
  }

  lemma WordWithin(d: seq<byte>, at: nat, i: nat, v: uint32)
    requires at + 36 <= |d| && i <= 32 && d[at..at + 36][i..i + 4] == U32(v)
    ensures Word4(d, at + i) == v
  {
    hide PutBE, BE;
    var m := d[at..at + 36];
    assert m[i] == d[at + i] && m[i + 1] == d[at + i + 1] && m[i + 2] == d[at + i + 2] && m[i + 3] == d[at + i + 3];
    assert m[i..i + 4] == [m[i], m[i + 1], m[i + 2], m[i + 3]];
    assert m[i..i + 4] == d[at + i..at + i + 4];
    WordAt(d, at + i, v);
  }

  lemma NineWords(d: seq<byte>, at: nat)
    requires at + 36 <= |d|
    ensures Words(d, at, 9) ==
            [Word4(d, at), Word4(d, at + 4), Word4(d, at + 8), Word4(d, at + 12), Word4(d, at + 16), Word4(d, at + 20),
             Word4(d, at + 24), Word4(d, at + 28), Word4(d, at + 32)]
  {
    hide Word4;
    assert Words(d, at + 36, 0) == [];
    assert Words(d, at + 32, 1) == [Word4(d, at + 32)];
    assert Words(d, at + 28, 2) == [Word4(d, at + 28), Word4(d, at + 32)];
    assert Words(d, at + 24, 3) == [Word4(d, at + 24), Word4(d, at + 28), Word4(d, at + 32)];
    assert Words(d, at + 20, 4) == [Word4(d, at + 20)] + Words(d, at + 24, 3);
    assert Words(d, at + 16, 5) == [Word4(d, at + 16)] + Words(d, at + 20, 4);
    assert Words(d, at + 12, 6) == [Word4(d, at + 12)] + Words(d, at + 16, 5);
    assert Words(d, at + 8, 7) == [Word4(d, at + 8)] + Words(d, at + 12, 6);
    assert Words(d, at + 4, 8) == [Word4(d, at + 4)] + Words(d, at + 8, 7);
  }

  lemma MatrixWords(m: seq<byte>)
    requires m == Matrix()
    ensures m[0..4] == U32(UNITY) && m[4..8] == U32(0) && m[8..12] == U32(0) && m[12..16] == U32(0)
    ensures m[16..20] == U32(UNITY) && m[20..24] == U32(0) && m[24..28] == U32(0) && m[28..32] == U32(0)
    ensures m[32..36] == U32(0x40000000)
  {
    hide PutBE;
  }

  /** A size in pixels, cut to 16 bits, in 16.16 fixed point. */
  function Fixed(pixels: nat): nat { pixels % TWO_16 * TWO_16 }

  /**
   The rest of what a printed movie box states: microseconds for its time, one enabled video track of the declared size,
   presented as it is, whose media is in the file and whose samples are described by fragments alone.
   */
  lemma MovieReadsBack(width: nat, height: nat, avcC: seq<byte>)
    requires |avcC| <= MAX_RECORD
    ensures ReadMovie(MoovPayload(width, height, avcC)) ==
            Some(Movie(1_000_000, 0x1_0000, 2,
                       1, 3, Fixed(width), Fixed(height), IDENTITY,
                       1_000_000, VIDE, 1, 1, 1, 1, 1, [0, 0, 0, 0, 0], 1, 1))
  {
    hide PutBE, BE, Child, Box, FullBox, Word4, Words, Matrix, MoovPayload, Trak, Mdia, Minf, Stbl, Stsd;
    hide Mvhd, Tkhd, Mdhd, Hdlr, Vmhd, Dinf, Mvex;
    Layout(width, height, avcC);
    TrakLayout(width, height, avcC);
    MinfLayout(width, height, avcC);
    TablesLayout(width, height, avcC);
    MvhdReadsBack(Mvhd()[8..]);
    TkhdReadsBack(Tkhd(width, height)[8..], width, height);
    MatrixReadsBack(Tkhd(width, height)[8..], 40);
    MdhdReadsBack(Mdhd()[8..]);
    HdlrReadsBack(Hdlr()[8..]);
    VmhdReadsBack(Vmhd()[8..]);
    DrefReadsBack(FullBox(DREF, 0, 0, U32(1) + FullBox(URL, 0, 1, []))[8..]);
    StsdReadsBack(Stsd(width, height, avcC)[8..], width, height, avcC);
    TrexReadsBack(Mvex()[8..]);
    TableReadsBack(FullBox(STTS, 0, 0, U32(0))[8..], STTS);
    TableReadsBack(FullBox(STSC, 0, 0, U32(0))[8..], STSC);
    TableReadsBack(FullBox(STCO, 0, 0, U32(0))[8..], STCO);
    SizesReadBack(FullBox(STSZ, 0, 0, U32(0) + U32(0))[8..]);
  }

  /** The brands a printed file type states: its major brand, that brand's version, and the ones it is compatible with. */
  lemma BrandsReadBack()
    ensures |Ftyp()| == 32 && Words(Ftyp()[8..], 0, 6) == [ISOM, 512, ISOM, ISO2, AVC1, MP41]
  {
    hide PutBE, BE, Word4;
    var d := Ftyp()[8..];
    assert d[0..4] == U32(ISOM) && d[4..8] == U32(512) && d[8..12] == U32(ISOM) && d[12..16] == U32(ISO2)
        && d[16..20] == U32(AVC1) && d[20..24] == U32(MP41);
    WordAt(d, 0, ISOM);
    WordAt(d, 4, 512);
    WordAt(d, 8, ISOM);
    WordAt(d, 12, ISO2);
    WordAt(d, 16, AVC1);
    WordAt(d, 20, MP41);
    assert Words(d, 24, 0) == [];
    assert Words(d, 20, 1) == [MP41];
    assert Words(d, 16, 2) == [AVC1, MP41];
    assert Words(d, 12, 3) == [ISO2] + Words(d, 16, 2);
    assert Words(d, 8, 4) == [ISOM] + Words(d, 12, 3);
    assert Words(d, 4, 5) == [512] + Words(d, 8, 4);
  }
}
