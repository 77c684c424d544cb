/**
 The fragmented MP4 boxes (ISO/IEC 14496-12) the compatibility transport is printed in: the box builders, the
 fragment, and the initialisation segment. Box types are their four characters read as one 32-bit number.
 */
module Mp4Boxes {
  import opened Bytes

  const FTYP := 0x66747970
  const MOOV := 0x6d6f6f76
  const MOOF := 0x6d6f6f66
  const MDAT := 0x6d646174
  const MVHD := 0x6d766864
  const TRAK := 0x7472616b
  const TKHD := 0x746b6864
  const MDIA := 0x6d646961
  const MDHD := 0x6d646864
  const HDLR := 0x68646c72
  const MINF := 0x6d696e66
  const VMHD := 0x766d6864
  const DINF := 0x64696e66
  const DREF := 0x64726566
  const URL := 0x75726c20
  const STBL := 0x7374626c
  const STSD := 0x73747364
  const STTS := 0x73747473
  const STSC := 0x73747363
  const STSZ := 0x7374737a
  const STCO := 0x7374636f
  const AVC1 := 0x61766331
  const AVCC := 0x61766343
  const MVEX := 0x6d766578
  const TREX := 0x74726578
  const MFHD := 0x6d666864
  const TRAF := 0x74726166
  const TFHD := 0x74666864
  const TFDT := 0x74666474
  const TRUN := 0x7472756e

  const VIDE := 0x76696465
  const ISOM := 0x69736f6d
  const ISO2 := 0x69736f32
  const MP41 := 0x6d703431

  /** Four characters, read as one number. */
  function FourCC(name: string): nat
    requires |name| == 4
  {
    name[0] as int * 0x100_0000 + name[1] as int * 0x1_0000 + name[2] as int * 0x100 + name[3] as int
  }

  lemma TypesAreNamed()
    ensures FTYP == FourCC("ftyp") && MOOV == FourCC("moov") && MOOF == FourCC("moof") && MDAT == FourCC("mdat")
    ensures MVHD == FourCC("mvhd") && TRAK == FourCC("trak") && TKHD == FourCC("tkhd") && MDIA == FourCC("mdia")
    ensures MDHD == FourCC("mdhd") && HDLR == FourCC("hdlr") && MINF == FourCC("minf") && VMHD == FourCC("vmhd")
    ensures DINF == FourCC("dinf") && DREF == FourCC("dref") && URL == FourCC("url ") && STBL == FourCC("stbl")
    ensures STSD == FourCC("stsd") && STTS == FourCC("stts") && STSC == FourCC("stsc") && STSZ == FourCC("stsz")
    ensures STCO == FourCC("stco") && AVC1 == FourCC("avc1") && AVCC == FourCC("avcC") && MVEX == FourCC("mvex")
    ensures TREX == FourCC("trex") && MFHD == FourCC("mfhd") && TRAF == FourCC("traf") && TFHD == FourCC("tfhd")
    ensures TFDT == FourCC("tfdt") && TRUN == FourCC("trun")
    ensures VIDE == FourCC("vide") && ISOM == FourCC("isom") && ISO2 == FourCC("iso2") && MP41 == FourCC("mp41")
  {
  }

  const TIMESCALE := 1_000_000
  const TRACK_ID := 1
  const UNITY := 0x00010000
  const DEFAULT_BASE_IS_MOOF := 0x020000
  /** Data offset, sample duration, sample size and sample flags are all stated. */
  const TRUN_FLAGS := 0x000701
  const FLAGS_KEY := 0x02000000
  const FLAGS_DELTA := 0x01010000

  function U16(v: nat): (s: seq<byte>) ensures |s| == 2 { PutBE(2, v) }
  function U32(v: nat): (s: seq<byte>) ensures |s| == 4 { PutBE(4, v) }
  function U64(v: nat): (s: seq<byte>) ensures |s| == 8 { PutBE(8, v) }
  function Zeros(n: nat): (s: seq<byte>) ensures |s| == n { seq(n, _ => 0) }

  /** What a box is: a size that counts the box itself, cut to 32 bits, and the type. */
  ghost predicate IsBox(b: seq<byte>, typ: nat) {
    |b| >= 8 && b[..4] == U32(|b| % TWO_32) && b[4..8] == U32(typ)
  }

  function Box(typ: uint32, payload: seq<byte>): (b: seq<byte>)
    ensures IsBox(b, typ) && |b| == 8 + |payload| && b[8..] == payload
  {
    var b := U32((8 + |payload|) % TWO_32) + U32(typ) + payload;
    assert b[8..] == payload && b[4..8] == U32(typ);
    b
  }

  function FullBox(typ: uint32, version: byte, flags: nat, payload: seq<byte>): (b: seq<byte>)
    ensures IsBox(b, typ) && |b| == 12 + |payload| && b[8..] == [version] + PutBE(3, flags) + payload
  {
    Box(typ, [version] + PutBE(3, flags) + payload)
  }

  /** One movie fragment that carries exactly one sample of the given size. */
  function Fragment(sequence: uint32, time: uint64, duration: uint32, key: bool, size: nat): (s: seq<byte>) {
    var mfhd := FullBox(MFHD, 0, 0, U32(sequence));
    var tfhd := FullBox(TFHD, 0, DEFAULT_BASE_IS_MOOF, U32(TRACK_ID));
    var tfdt := FullBox(TFDT, 1, 0, U64(time));
    var trunSize := 8 + 4 + 20;
    var trafSize := 8 + |tfhd| + |tfdt| + trunSize;
    var moofSize := 8 + |mfhd| + trafSize;
    var dataOffset := moofSize + 8;
    var flags := if key then FLAGS_KEY else FLAGS_DELTA;
    var trun := FullBox(TRUN, 0, TRUN_FLAGS,
                        U32(1) + U32(dataOffset % TWO_32) + U32(duration) + U32(size % TWO_32) + U32(flags));
    var traf := Box(TRAF, tfhd + (tfdt + trun));
    Box(MOOF, mfhd + traf)
  }

  function Matrix(): (s: seq<byte>) ensures |s| == 36 {
    U32(UNITY) + U32(0) + U32(0) + U32(0) + U32(UNITY) + U32(0) + U32(0) + U32(0) + U32(0x40000000)
  }

  function Ftyp(): (b: seq<byte>) ensures IsBox(b, FTYP) && |b| == 32 {
    Box(FTYP, U32(ISOM) + U32(512) + U32(ISOM) + U32(ISO2) + U32(AVC1) + U32(MP41))
  }

  function Mvhd(): (b: seq<byte>) ensures IsBox(b, MVHD) && |b| == 108 {
    FullBox(MVHD, 0, 0,
            U32(0) + U32(0) + U32(TIMESCALE) + U32(0) + U32(0x00010000) + U16(0x0100) + U16(0) + U32(0) + U32(0)
            + Matrix() + U32(0) + U32(0) + U32(0) + U32(0) + U32(0) + U32(0) + U32(TRACK_ID + 1))
  }

  function Tkhd(width: nat, height: nat): (b: seq<byte>) ensures IsBox(b, TKHD) && |b| == 92 {
    FullBox(TKHD, 0, 0x000003,
            (U32(0) + U32(0) + U32(TRACK_ID) + U32(0) + U32(0) + U32(0) + U32(0) + U16(0) + U16(0) + U16(0) + U16(0))
            + (Matrix() + U32(width % TWO_16 * TWO_16) + U32(height % TWO_16 * TWO_16)))
  }

  function Mdhd(): (b: seq<byte>) ensures IsBox(b, MDHD) && |b| == 32 {
    FullBox(MDHD, 0, 0, U32(0) + U32(0) + U32(TIMESCALE) + U32(0) + U16(0x55c4) + U16(0))
  }

  function Hdlr(): (b: seq<byte>) ensures IsBox(b, HDLR) && |b| == 38 {
    FullBox(HDLR, 0, 0, U32(0) + U32(VIDE) + U32(0) + U32(0) + U32(0) + [0x64, 0x72, 0x69, 0x66, 0x74, 0])
  }

  function Vmhd(): (b: seq<byte>) ensures IsBox(b, VMHD) && |b| == 20 { FullBox(VMHD, 0, 1, U16(0) + U16(0) + U16(0) + U16(0)) }

  function Dinf(): (b: seq<byte>) ensures IsBox(b, DINF) && |b| == 36 { Box(DINF, FullBox(DREF, 0, 0, U32(1) + FullBox(URL, 0, 1, []))) }

  /** The fixed part of the avc1 sample entry: the encoded size sits at bytes 24 to 27. */
  function SampleEntryHead(width: nat, height: nat): (s: seq<byte>)
    ensures |s| == 78
  {
    (Zeros(6) + U16(1) + U16(0) + U16(0) + U32(0) + U32(0) + U32(0))
    + (U16(width % TWO_16) + U16(height % TWO_16))
    + (U32(0x00480000) + U32(0x00480000) + U32(0) + U16(1) + [5, 0x64, 0x72, 0x69, 0x66, 0x74] + Zeros(26) + U16(0x0018) + U16(0xffff))
  }

  function Stsd(width: nat, height: nat, avcC: seq<byte>): (b: seq<byte>)
    ensures IsBox(b, STSD) && |b| == |avcC| + 110
  {
    FullBox(STSD, 0, 0, U32(1) + Box(AVC1, SampleEntryHead(width, height) + Box(AVCC, avcC)))
  }

  /** The sample tables, present and empty: every sample is described by its own fragment. */
  function SampleTables(): (s: seq<byte>)
    ensures |s| == 68
  {
    FullBox(STTS, 0, 0, U32(0)) + FullBox(STSC, 0, 0, U32(0)) + FullBox(STSZ, 0, 0, U32(0) + U32(0))
    + FullBox(STCO, 0, 0, U32(0))
  }

  function Stbl(width: nat, height: nat, avcC: seq<byte>): (b: seq<byte>)
    ensures IsBox(b, STBL) && |b| == |avcC| + 186
  {
    Box(STBL, Stsd(width, height, avcC)
              + SampleTables())
  }

  function Minf(width: nat, height: nat, avcC: seq<byte>): (b: seq<byte>)
    ensures IsBox(b, MINF) && |b| == |avcC| + 250
  {
    Box(MINF, Vmhd() + (Dinf() + Stbl(width, height, avcC)))
  }

  function Mdia(width: nat, height: nat, avcC: seq<byte>): (b: seq<byte>)
    ensures IsBox(b, MDIA) && |b| == |avcC| + 328
  {
    Box(MDIA, Mdhd() + (Hdlr() + Minf(width, height, avcC)))
  }

  function Trak(width: nat, height: nat, avcC: seq<byte>): (b: seq<byte>)
    ensures IsBox(b, TRAK) && |b| == |avcC| + 428
  {
    Box(TRAK, Tkhd(width, height) + Mdia(width, height, avcC))
  }

  function Mvex(): (b: seq<byte>) ensures IsBox(b, MVEX) && |b| == 40 {
    Box(MVEX, FullBox(TREX, 0, 0, U32(TRACK_ID) + U32(1) + U32(0) + U32(0) + U32(0)))
  }

  function MoovPayload(width: nat, height: nat, avcC: seq<byte>): seq<byte> {
    Mvhd() + (Trak(width, height, avcC) + Mvex())
  }

  /** The segment that declares the codec and the size every later picture is described by. */
  function InitSegment(width: nat, height: nat, avcC: seq<byte>): seq<byte> {
    Ftyp() + Box(MOOV, MoovPayload(width, height, avcC))
  }
}
