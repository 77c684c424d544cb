/** One access unit's wire packet: a fixed header and an Annex B payload, both directions. */
module H264Wire {
  import opened AnnexB
  import opened Bytes
  import opened Words
  import opened Wrappers

  const HEADER := 36
  const MAX_PAYLOAD := 0x20_0000
  const MAX_DIMENSION := 16_384

  datatype Packet = Packet(sequence: uint64, timestampUS: uint64, key: bool, width: uint32, height: uint32, data: seq<byte>)

  /** The payload has a start code somewhere. */
  ghost predicate HasStartCode(d: seq<byte>) { exists i: nat :: i <= |d| && CodeLen(d, i) > 0 }

  ghost predicate Valid(p: Packet) {
    && p.sequence != 0
    && 0 < p.width <= MAX_DIMENSION && 0 < p.height <= MAX_DIMENSION
    && 0 < |p.data| <= MAX_PAYLOAD
    && HasStartCode(p.data)
  }

  function Head(key: bool): seq<byte> { [68, 82, 72, 49, 1, if key then 1 else 0, 0, 0] }

  function Two64(a: nat, b: nat): seq<byte> { PutBE(8, a) + PutBE(8, b) }

  function Wire(p: Packet): seq<byte> {
    Head(p.key) + Two64(p.sequence, p.timestampUS) + Three32(p.width, p.height, |p.data|) + p.data
  }

  /** A wire's header is sound: magic, version, flags, and a length that is the rest of the wire exactly. */
  predicate Framed(w: seq<byte>) {
    && |w| >= HEADER && w[..4] == [68, 82, 72, 49] && w[4] == 1 && w[5] <= 1 && w[6] == 0 && w[7] == 0
    && 0 < U32(w, 32) <= MAX_PAYLOAD
    && |w| == HEADER + U32(w, 32)
  }

  function Fields(w: seq<byte>): Packet
    requires |w| >= HEADER
  {
    Packet(U64(w, 8), U64(w, 16), w[5] == 1, U32(w, 24), U32(w, 28), w[HEADER..])
  }

  ghost function Decoded(w: seq<byte>): Option<Packet> {
    if Framed(w) && Valid(Fields(w)) then Some(Fields(w)) else None
  }

  // ----- Both directions

  lemma Parts(p: Packet, w: seq<byte>)
    requires w == Wire(p)
    ensures |w| == HEADER + |p.data|
    ensures w[..8] == Head(p.key) && w[8..24] == Two64(p.sequence, p.timestampUS)
    ensures w[24..36] == Three32(p.width, p.height, |p.data|) && w[HEADER..] == p.data
  {
    hide PutBE;
  }

  lemma TwoSlices(w: seq<byte>, a: nat, b: nat)
    requires |w| >= 24 && w[8..24] == Two64(a, b)
    ensures w[8..16] == PutBE(8, a) && w[16..24] == PutBE(8, b)
  {
    hide PutBE;
    var q := w[8..24];
    assert q[..8] == PutBE(8, a) && q[8..16] == PutBE(8, b);
    SliceOfSlice(w, 8, 24, 0, 8);
    SliceOfSlice(w, 8, 24, 8, 16);
  }

  lemma TwoJoined(w: seq<byte>)
    requires |w| >= 24
    ensures Two64(BE(w[8..16]), BE(w[16..24])) == w[8..24]
  {
    hide PutBE, BE;
    WriteBackBE(w[8..16]);
    WriteBackBE(w[16..24]);
    assert w[8..24] == w[8..16] + w[16..24];
  }

  lemma HeadRead(w: seq<byte>, key: bool)
    requires |w| >= 8 && w[..8] == Head(key)
    ensures w[..4] == [68, 82, 72, 49] && w[4] == 1 && w[5] == (if key then 1 else 0) && w[6] == 0 && w[7] == 0
  {
    var h := w[..8];
    assert w[..4] == h[..4] && w[4] == h[4] && w[5] == h[5] && w[6] == h[6] && w[7] == h[7];
  }

  /** Where each field is: the magic, a version, the flags, then big-endian numbers, then the payload and nothing more. */
  lemma FieldsAreAt(p: Packet)
    ensures var w := Wire(p);
            && |w| == 36 + |p.data| && w[36..] == p.data
            && w[0] == 'D' as int && w[1] == 'R' as int && w[2] == 'H' as int && w[3] == '1' as int
            && w[4] == 1 && w[5] == (if p.key then 1 else 0) && w[6] == w[7] == 0
            && BE(w[8..16]) == p.sequence && BE(w[16..24]) == p.timestampUS
            && BE(w[24..28]) == p.width && BE(w[28..32]) == p.height
            && (|p.data| < TWO_32 ==> BE(w[32..36]) == |p.data|)
  {
    var w := Wire(p);
    Parts(p, w);
    hide Wire, PutBE, BE, Two64, Three32;
    HeadRead(w, p.key);
    assert w[..4][0] == w[0] && w[..4][1] == w[1] && w[..4][2] == w[2] && w[..4][3] == w[3];
    TwoSlices(w, p.sequence, p.timestampUS);
    ThreeSlices(w, 24, p.width, p.height, |p.data|);
    Widths();
    ReadBackBE(8, p.sequence);
    ReadBackBE(8, p.timestampUS);
    ReadBackBE(4, p.width);
    ReadBackBE(4, p.height);
    if |p.data| < TWO_32 {
      ReadBackBE(4, |p.data|);
    }
  }

  /** Every valid packet is read back from its wire. */
  lemma DecodeUndoesEncode(p: Packet)
    requires Valid(p)
    ensures Decoded(Wire(p)) == Some(p)
  {
    var w := Wire(p);
    Parts(p, w);
    hide Wire, PutBE, U64, U32, BE, Two64, Three32, HasStartCode;
    HeadRead(w, p.key);
    TwoSlices(w, p.sequence, p.timestampUS);
    ThreeSlices(w, 24, p.width, p.height, |p.data|);
    Read64(w, 8, p.sequence);
    Read64(w, 16, p.timestampUS);
    Read32(w, 24, p.width);
    Read32(w, 28, p.height);
    Read32(w, 32, |p.data|);
  }

  /** Every accepted wire is the one wire of the packet it is read as. */
  lemma EncodeUndoesDecode(w: seq<byte>)
    requires Decoded(w).Some?
    ensures Valid(Decoded(w).value) && Wire(Decoded(w).value) == w
  {
    hide PutBE, BE, HasStartCode;
    TwoJoined(w);
    ThreeJoined(w, 24);
    HeadJoined(w);
    assert w == w[..8] + w[8..24] + w[24..36] + w[36..];
  }

  lemma HeadJoined(w: seq<byte>)
    requires Framed(w)
    ensures Head(w[5] == 1) == w[..8]
  {
    hide U32;
    assert w[..4][0] == 68 && w[..4][1] == 82 && w[..4][2] == 72 && w[..4][3] == 49;
  }

  /** So packets do not share wires, and nothing may follow an accepted wire or be missing from it. */
  lemma ExactlyOneWire(w: seq<byte>, more: seq<byte>)
    requires Decoded(w).Some? && more != []
    ensures Decoded(w + more) == None
    ensures forall n :: 0 <= n < |w| ==> Decoded(w[..n]) == None
  {
    hide BE, Valid;
    if |w + more| >= HEADER {
      assert (w + more)[32..36] == w[32..36];
    }
    forall n | 0 <= n < |w| ensures Decoded(w[..n]) == None {
      if n >= HEADER {
        SliceOfSlice(w, 0, n, 32, 36);
        assert w[0..n] == w[..n];
      }
    }
  }

  /** A payload has a start code exactly where 0, 0, 1 stand in a row. */
  lemma StartCodeIsThere(d: seq<byte>)
    ensures HasStartCode(d) <==> exists i: nat {:trigger d[i]} :: i + 2 < |d| && d[i] == 0 && d[i + 1] == 0 && d[i + 2] == 1
  {
    if HasStartCode(d) {
      var i: nat :| i <= |d| && CodeLen(d, i) > 0;
      var at: nat := if d[i + 2] == 1 then i else i + 1;
      assert d[at] == 0 && d[at + 1] == 0 && d[at + 2] == 1;
    }
    if i: nat {:trigger d[i]} :| i + 2 < |d| && d[i] == 0 && d[i + 1] == 0 && d[i + 2] == 1 {
      assert CodeLen(d, i) > 0;
    }
  }

  /** The wires that are accepted, byte by byte. */
  lemma AcceptedExactly(w: seq<byte>)
    ensures Decoded(w).Some? <==>
            && 36 < |w| <= 36 + 2 * 1024 * 1024 && BE(w[32..36]) == |w| - 36
            && w[0] == 'D' as int && w[1] == 'R' as int && w[2] == 'H' as int && w[3] == '1' as int
            && w[4] == 1 && (w[5] == 0 || w[5] == 1) && w[6] == w[7] == 0
            && BE(w[8..16]) != 0 && 0 < BE(w[24..28]) <= 16_384 && 0 < BE(w[28..32]) <= 16_384
            && exists i: nat {:trigger w[36..][i]} :: i + 38 < |w| && w[36..][i] == 0 && w[36..][i + 1] == 0 && w[36..][i + 2] == 1
  {
    if |w| >= 36 {
      StartCodeIsThere(w[36..]);
      assert w[..4] == [w[0], w[1], w[2], w[3]];
    }
    hide BE, HasStartCode;
  }

  // ----- The code

  method HasAnnexBStartCode(data: seq<byte>) returns (found: bool)
    ensures found <==> HasStartCode(data)
  {
    var i := 0;
    while i + 3 <= |data|
      invariant forall k: nat :: k < i ==> CodeLen(data, k) == 0
    {
      if data[i] == 0 && data[i + 1] == 0 && (data[i + 2] == 1 || (i + 4 <= |data| && data[i + 2] == 0 && data[i + 3] == 1)) {
        assert CodeLen(data, i) > 0;
        return true;
      }
      i := i + 1;
    }
    return false;
  }

  method Validate(p: Packet) returns (valid: bool)
    ensures valid <==> Valid(p)
  {
    if p.sequence == 0 {
      return false;
    }
    if p.width == 0 || p.height == 0 || p.width > MAX_DIMENSION || p.height > MAX_DIMENSION {
      return false;
    }
    if |p.data| == 0 || |p.data| > MAX_PAYLOAD {
      return false;
    }
    valid := HasAnnexBStartCode(p.data);
  }

  /** Copies bytes into a buffer at an offset. */
  method Put(wire: array<byte>, at: nat, bytes: seq<byte>)
    requires at + |bytes| <= wire.Length
    modifies wire
    ensures wire[..at + |bytes|] == old(wire[..at]) + bytes
    ensures wire[at + |bytes|..] == old(wire[at + |bytes|..])
  {
    for i := 0 to |bytes|
      invariant wire[..at] == old(wire[..at]) && wire[at..at + i] == bytes[..i]
      invariant wire[at + |bytes|..] == old(wire[at + |bytes|..])
    {
      wire[at + i] := bytes[i];
      assert wire[at..at + i + 1] == wire[at..at + i] + [bytes[i]];
    }
    assert wire[..at + |bytes|] == wire[..at] + wire[at..at + |bytes|];
  }

  method Encode(p: Packet) returns (wire: array?<byte>)
    ensures wire == null <==> !Valid(p)
    ensures wire != null ==> fresh(wire) && wire[..] == Wire(p)
  {
    hide PutBE, HasStartCode, Wire, Head;
    var valid := Validate(p);
    if !valid {
      return null;
    }
    wire := new byte[HEADER + |p.data|](_ => 0);
    PutHead(wire, p.key);
    Put(wire, 8, PutBE(8, p.sequence));
    Put(wire, 16, PutBE(8, p.timestampUS));
    Put(wire, 24, PutBE(4, p.width));
    Put(wire, 28, PutBE(4, p.height));
    Put(wire, 32, PutBE(4, |p.data|));
    Put(wire, HEADER, p.data);
    assert wire[..] == wire[..HEADER + |p.data|];
    WireFlat(p);
  }

  method PutHead(wire: array<byte>, key: bool)
    requires wire.Length >= 8 && wire[4..8] == [0, 0, 0, 0]
    modifies wire
    ensures wire[..8] == Head(key)
  {
    assert forall k :: 4 <= k < 8 ==> wire[k] == wire[4..8][k - 4];
    wire[0], wire[1], wire[2], wire[3] := 68, 82, 72, 49;
    wire[4] := 1;
    if key {
      wire[5] := 1;
    }
  }

  lemma WireFlat(p: Packet)
    ensures Wire(p) ==
            Head(p.key) + PutBE(8, p.sequence) + PutBE(8, p.timestampUS)
            + PutBE(4, p.width) + PutBE(4, p.height) + PutBE(4, |p.data|) + p.data
  {
    hide PutBE;
  }

  method Decode(wire: seq<byte>) returns (packet: Option<Packet>)
    ensures packet == Decoded(wire)
  {
    if |wire| < HEADER || wire[..4] != [68, 82, 72, 49] || wire[4] != 1 {
      return None;
    }
    if wire[5] > 1 || wire[6] != 0 || wire[7] != 0 {
      return None;
    }
    var payload := U32(wire, 32);
    if payload == 0 || payload > MAX_PAYLOAD || |wire| != HEADER + payload {
      return None;
    }
    var fields := Fields(wire);
    var valid := Validate(fields);
    return if valid then Some(fields) else None;
  }
}
