/**
 Reading fragmented MP4 back: the box reader the transport measurement uses, and above it a reader of the
 declaration, of the fragment and of the samples, written from the box layouts alone.
 */
module Mp4Reader {
  import opened Bytes
  import opened Wrappers
  import opened Mp4Boxes
  import opened Mp4Sample

  datatype ReadError = ShortHeader | NoLength | ImpossibleLength | ShortBody
  datatype BoxRead = Read(typ: nat, body: seq<byte>) | Failed(error: ReadError)

  /** A 64-bit pattern read as a signed number. */
  function Signed(v: int): int {
    var m := v % TWO_64;
    if m < TWO_63 then m else m - TWO_64
  }

  /** One box off the front of a byte stream, and what the reader has left. */
  function ReadBox(d: seq<byte>): (r: (BoxRead, seq<byte>))
    ensures r.0.Read? ==> |r.1| + 8 + |r.0.body| <= |d|
  {
    if |d| < 8 then (Failed(ShortHeader), [])
    else
      var size := BE(d[..4]);
      var typ := BE(d[4..8]);
      if size != 1 then Bounded(typ, size, size - 8, d[8..])
      else if |d| < 16 then (Failed(ShortHeader), [])
      else
        var large := BE(d[8..16]);
        Bounded(typ, large, Signed(Signed(large) - 16), d[16..])
  }

  /** What follows a header that declares this size: the body it bounds, or why there is none. */
  function Bounded(typ: nat, size: nat, body: int, d: seq<byte>): (r: (BoxRead, seq<byte>))
    ensures r.0.Read? ==> |r.1| + |r.0.body| == |d|
  {
    if size == 0 then (Failed(NoLength), d)
    else if body < 0 then (Failed(ImpossibleLength), d)
    else if |d| < body then (Failed(ShortBody), [])
    else (Read(typ, d[..body]), d[body..])
  }

  lemma SignedIs(v: int)
    requires -TWO_63 - 16 <= v < TWO_64
    ensures Signed(v) == if v < -TWO_63 then v + TWO_64 else if v < TWO_63 then v else v - TWO_64
  {
  }

  /**
   Which bytes are a box, and what it holds: a header of eight bytes, or of sixteen when the size is in the long form, that
   states a size no less than its own; and that many bytes. What is none is refused for the first reason that holds.
   */
  lemma ReadExactly(d: seq<byte>)
    ensures var long := |d| >= 8 && BE(d[..4]) == 1;
            var header := if long then 16 else 8;
            if |d| < header then ReadBox(d) == (Failed(ShortHeader), [])
            else
              var size := if long then BE(d[8..16]) else BE(d[..4]);
              if size == 0 then ReadBox(d) == (Failed(NoLength), d[header..])
              else if size < header || size >= TWO_63 + 16 then ReadBox(d) == (Failed(ImpossibleLength), d[header..])
              else if |d| < size then ReadBox(d) == (Failed(ShortBody), [])
              else ReadBox(d) == (Read(BE(d[4..8]), d[header..size]), d[size..])
  {
    if |d| >= 8 {
      BELess(d[..4]);
      if |d| >= 16 {
        BELess(d[8..16]);
        var large := BE(d[8..16]);
        SignedIs(large);
        SignedIs(Signed(large) - 16);
      }
      SuffixesOf(d);
    }
    hide BE, Signed;
  }

  lemma BELess(s: seq<byte>)
    ensures |s| == 4 ==> BE(s) < TWO_32
    ensures |s| == 8 ==> BE(s) < TWO_64
  {
    assert Pow256(4) == TWO_32;
    assert Pow256(8) == 256 * (256 * (256 * (256 * Pow256(4))));
    hide BE, Pow256;
  }

  lemma SuffixesOf(d: seq<byte>)
    requires |d| >= 8
    ensures forall n :: 8 <= n <= |d| ==> d[8..][..n - 8] == d[8..n] && d[8..][n - 8..] == d[n..]
    ensures forall n :: 16 <= n <= |d| ==> d[16..][..n - 16] == d[16..n] && d[16..][n - 16..] == d[n..]
  {
  }

  /** The reader's own state: the bytes it has not consumed. */
  class BoxReader {
    var rest: seq<byte>

    constructor (stream: seq<byte>)
      ensures rest == stream
    {
      rest := stream;
    }

    /** Fills a buffer of n bytes, or consumes what there is and fails. */
    method ReadFull(n: nat) returns (filled: bool, buffer: seq<byte>)
      modifies this
      ensures filled == (n <= |old(rest)|)
      ensures filled ==> buffer == old(rest)[..n] && rest == old(rest)[n..]
      ensures !filled ==> rest == []
    {
      if |rest| < n {
        filled, buffer, rest := false, [], [];
      } else {
        filled, buffer, rest := true, rest[..n], rest[n..];
      }
    }

    /** Consumes one box and returns its type. */
    method Next() returns (typ: nat, error: Option<ReadError>)
      modifies this
      ensures var (read, left) := ReadBox(old(rest));
              && rest == left
              && (read.Read? ==> error == None && typ == read.typ)
              && (read.Failed? ==> error == Some(read.error))
    {
      typ, error := 0, None;
      ghost var start := rest;
      var filled, header := ReadFull(8);
      if !filled {
        return 0, Some(ShortHeader);
      }
      var size := Big4(header[0], header[1], header[2], header[3]);
      FourBytes(header);
      assert header[..4] == start[..4] && header[4..8] == start[4..8];
      typ := BE(header[4..8]);
      var body := size - 8;
      if size == 1 {
        var ok, large := ReadFull(8);
        if !ok {
          return 0, Some(ShortHeader);
        }
        assert large == start[8..16] && rest == start[16..];
        size := 0;
        for i := 0 to 8
          invariant size == BE(large[..i])
        {
          assert large[..i + 1][..i] == large[..i];
          size := size * 256 + large[i];
        }
        assert large[..8] == large;
        body := Signed(Signed(size) - 16);
      }
      if size == 0 {
        return 0, Some(NoLength);
      }
      if body < 0 {
        return 0, Some(ImpossibleLength);
      }
      if body > 0 {
        var copied, discarded := ReadFull(body);
        if !copied {
          return 0, Some(ShortBody);
        }
      }
    }
  }

  function Big4(b0: int, b1: int, b2: int, b3: int): int {
    b0 * 0x100_0000 + b1 * 0x1_0000 + b2 * 0x100 + b3
  }

  lemma FourBytes(h: seq<byte>)
    requires |h| >= 4
    ensures BE(h[..4]) == Big4(h[0], h[1], h[2], h[3])
  {
    assert h[..4][..3] == h[..3] && h[..3][..2] == h[..2] && h[..2][..1] == h[..1] && h[..1][..0] == [];
    assert BE(h[..1]) == h[0];
    assert BE(h[..2]) == Big4(0, 0, h[0], h[1]);
    assert BE(h[..3]) == Big4(0, h[0], h[1], h[2]);
  }

  /** A printed box is read back, and the reader stops exactly at its end. */
  lemma BoxReadsBack(b: seq<byte>, typ: uint32, rest: seq<byte>)
    requires IsBox(b, typ) && |b| < TWO_32
    ensures ReadBox(b + rest) == (Read(typ, b[8..]), rest)
  {
    hide PutBE, BE;
    var d := b + rest;
    assert d[..4] == b[..4] && d[4..8] == b[4..8] && d[8..] == b[8..] + rest;
    Word(|b|);
    Word(typ);
    assert d[8..][..|b| - 8] == b[8..] && d[8..][|b| - 8..] == rest;
  }

  /** A printed box states its own size exactly when it fits the 32 bits it has for it. */
  lemma SizeIsStated(b: seq<byte>, typ: uint32)
    requires IsBox(b, typ)
    ensures BE(b[..4]) == |b| <==> |b| < TWO_32
  {
    Word(|b| % TWO_32);
  }

  lemma Word(v: uint32)
    ensures BE(U32(v)) == v
  {
    assert Pow256(4) == TWO_32;
    ReadBackBE(4, v);
  }

  // ----- A player: what the printed stream means to whoever reads it

  /** The payload of the first child box of this type. */
  function Child(payload: seq<byte>, typ: nat): Option<seq<byte>>
    decreases |payload|
  {
    match ReadBox(payload)
    case (Read(t, body), rest) => if t == typ then Some(body) else Child(rest, typ)
    case (Failed(_), _) => None
  }

  function ChildOf(parent: Option<seq<byte>>, typ: nat): Option<seq<byte>> {
    if parent.None? then None else Child(parent.value, typ)
  }

  /** What a declaration states: the encoded size and the codec configuration record. */
  datatype Config = Config(width: nat, height: nat, avcC: seq<byte>)

  /** Follows a moov down to its sample entry. */
  function ReadConfig(moov: seq<byte>): Option<Config> {
    var stbl := ChildOf(ChildOf(ChildOf(Child(moov, TRAK), MDIA), MINF), STBL);
    var stsd := ChildOf(stbl, STSD);
    if stsd.None? || |stsd.value| < 8 then None
    else
      var entry := Child(stsd.value[8..], AVC1);
      if entry.None? || |entry.value| < 78 then None
      else
        var avcC := Child(entry.value[78..], AVCC);
        if avcC.None? then None
        else Some(Config(BE(entry.value[24..26]), BE(entry.value[26..28]), avcC.value))
  }

  /** What a movie box states besides the sample entry: times, the one track and its presentation, and that fragments follow. */
  datatype Movie = Movie(
    timescale: nat, rate: nat, nextTrack: nat,
    track: nat, trackFlags: nat, trackWidth: nat, trackHeight: nat, trackMatrix: seq<nat>,
    mediaTimescale: nat, handler: nat, graphics: nat, references: nat, referenceFlags: nat,
    entries: nat, entryReference: nat, tables: seq<nat>,
    extendedTrack: nat, extendedEntry: nat)

  function Word4(d: seq<byte>, at: nat): nat
    requires at + 4 <= |d|
  {
    BE(d[at..at + 4])
  }

  function Words(d: seq<byte>, at: nat, n: nat): seq<nat>
    requires at + 4 * n <= |d|
    decreases n
  {
    if n == 0 then [] else [Word4(d, at)] + Words(d, at + 4, n - 1)
  }

  /** The payload of a full box of this type with this many bytes of fields, at its version. */
  function Fields(parent: Option<seq<byte>>, typ: nat, size: nat): Option<seq<byte>> {
    var body := ChildOf(parent, typ);
    if body.None? || |body.value| < 4 + size || body.value[0] != 0 then None else body
  }

  function ReadMovie(moov: seq<byte>): Option<Movie> {
    var trak := Child(moov, TRAK);
    var mdia := ChildOf(trak, MDIA);
    var minf := ChildOf(mdia, MINF);
    var stbl := ChildOf(minf, STBL);
    var mvhd, tkhd, mdhd := Fields(Some(moov), MVHD, 96), Fields(trak, TKHD, 80), Fields(mdia, MDHD, 20);
    var hdlr, vmhd, dref := Fields(mdia, HDLR, 20), Fields(minf, VMHD, 8), Fields(ChildOf(minf, DINF), DREF, 4);
    var stsd, trex := Fields(stbl, STSD, 4), Fields(Child(moov, MVEX), TREX, 20);
    var stts, stsc := Fields(stbl, STTS, 4), Fields(stbl, STSC, 4);
    var stsz, stco := Fields(stbl, STSZ, 8), Fields(stbl, STCO, 4);
    if mvhd.None? || tkhd.None? || mdhd.None? || hdlr.None? || vmhd.None? || dref.None? || stsd.None? || trex.None?
       || stts.None? || stsc.None? || stsz.None? || stco.None? then None
    else
      var url, entry := Child(dref.value[8..], URL), Child(stsd.value[8..], AVC1);
      if url.None? || |url.value| < 4 || entry.None? || |entry.value| < 8 then None
      else Some(Movie(
        Word4(mvhd.value, 12), Word4(mvhd.value, 20), Word4(mvhd.value, 96),
        Word4(tkhd.value, 12), BE(tkhd.value[1..4]), Word4(tkhd.value, 76), Word4(tkhd.value, 80), Words(tkhd.value, 40, 9),
        Word4(mdhd.value, 12), Word4(hdlr.value, 8), BE(vmhd.value[1..4]), Word4(dref.value, 4), BE(url.value[1..4]),
        Word4(stsd.value, 4), BE(entry.value[6..8]),
        [Word4(stts.value, 4), Word4(stsc.value, 4), Word4(stsz.value, 4), Word4(stsz.value, 8), Word4(stco.value, 4)],
        Word4(trex.value, 4), Word4(trex.value, 8)))
  }

  /** What a fragment states about its one sample. */
  datatype FragmentInfo = FragmentInfo(
    sequence: nat, track: nat, time: nat, offset: nat, duration: nat, size: nat, key: bool)

  function ReadFragment(moof: seq<byte>): Option<FragmentInfo> {
    var mfhd := Child(moof, MFHD);
    var traf := Child(moof, TRAF);
    var tfhd, tfdt, trun := ChildOf(traf, TFHD), ChildOf(traf, TFDT), ChildOf(traf, TRUN);
    if mfhd.None? || tfhd.None? || tfdt.None? || trun.None? then None
    else if |mfhd.value| != 8 || |tfhd.value| != 8 || |tfdt.value| != 12 || |trun.value| != 24 then None
    else if BE(tfhd.value[1..4]) != 0x02_0000 || tfdt.value[0] != 1 then None
    // The data's offset and the one sample's duration, size and flags are all stated.
    else if BE(trun.value[1..4]) != 0x00_0701 || BE(trun.value[4..8]) != 1 then None
    else
      // Bit 16 of the sample flags (section 8.8.3.1 of ISO/IEC 14496-12) marks a sample a decoder may not start at; bits
      // 24 and 25 say whether it depends on others: 1 that it does, 2 that it does not.
      var flags := BE(trun.value[20..24]);
      var key := flags / 0x1_0000 % 2 == 0;
      if flags / 0x100_0000 % 4 != (if key then 2 else 1) then None
      else Some(FragmentInfo(BE(mfhd.value[4..8]), BE(tfhd.value[4..8]), BE(tfdt.value[4..12]), BE(trun.value[8..12]),
                        BE(trun.value[12..16]), BE(trun.value[16..20]), key))
  }

  /** One picture as a player receives it: the declaration in force, its place on the timeline, its NAL units. */
  datatype Picture = Picture(config: Config, sequence: nat, key: bool, time: nat, duration: nat, nals: seq<seq<byte>>)

  /** A fragment's picture, taken where the fragment says it is, relative to its own first byte; and what follows. */
  function TakePicture(d: seq<byte>, moof: seq<byte>, rest: seq<byte>, config: Config): (r: Option<(Picture, seq<byte>)>)
    ensures r.Some? ==> |r.value.1| <= |rest|
  {
    var info, mdat := ReadFragment(moof), ReadBox(rest);
    if info.None? || info.value.track != 1 || mdat.0.Failed? || mdat.0.typ != MDAT then None
    else if |d| < info.value.offset + info.value.size then None
    else
      var i := info.value;
      var nals := Split(d[i.offset..i.offset + i.size], 4);
      if nals.None? then None
      else Some((Picture(config, i.sequence, i.key, i.time, i.duration, nals.value), mdat.1))
  }

  /** Plays a byte stream under the declaration in force: declarations replace it, and each fragment is a picture. */
  function Play(d: seq<byte>, config: Option<Config>): Option<seq<Picture>>
    decreases |d|
  {
    if d == [] then Some([])
    else
      match ReadBox(d)
      case (Failed(_), _) => None
      case (Read(typ, body), rest) =>
        if typ == FTYP then Play(rest, config)
        else if typ == MOOV then
          var declared := ReadConfig(body);
          if declared.None? then None else Play(rest, declared)
        else if typ == MOOF && config.Some? then
          var picture := TakePicture(d, body, rest, config.value);
          if picture.None? then None
          else
            var tail := Play(picture.value.1, config);
            if tail.None? then None else Some([picture.value.0] + tail.value)
        else None
  }
}
