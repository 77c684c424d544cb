/** The realtime control channel's messages: their layout, their validity, and the two directions of the codec. */
module ControlMessage {
  import opened Bytes
  import opened Text
  import opened Words
  import opened Wrappers

  const SIZE := 72
  const MAX_SIZE := 16 * 1024
  const VERSION := 1
  const CURRENT_VERSION := 2
  const MAX_FOLLOWERS := 64
  const MAX_ID := 128

  const DOWN := 1
  const MOVE := 2
  const UP := 3
  const CANCEL := 4
  const KEY := 5
  const SET_FOLLOWERS := 6

  const GESTURE_UNSPECIFIED := 0
  const GESTURE_TAP := 1
  const GESTURE_SWIPE := 2
  const MIN_SWIPE_MS := 16
  const MAX_SWIPE_MS := 10_000

  /** A follower's device id, as the bytes that spell it. */
  type Id = seq<byte>

  datatype Message = Message(
    version: byte, kind: byte, final: bool,
    sequence: uint64, gestureID: uint64, timestampMS: int, generation: uint64,
    width: uint32, height: uint32, x: uint32, y: uint32, keyCode: uint32, repeat: uint32,
    gestureKind: byte, durationMS: uint32,
    followers: seq<Id>)

  // ----- Validity

  predicate IsTouch(kind: byte) { kind == DOWN || kind == MOVE || kind == UP || kind == CANCEL }

  /** An id is short, and text with no space around it and no control character. */
  predicate ValidIds(ids: seq<Id>) {
    |ids| <= MAX_FOLLOWERS && forall k :: 0 <= k < |ids| ==> 0 < |ids[k]| <= MAX_ID && IsPlain(ids[k])
  }

  predicate ValidTouch(m: Message) {
    && m.gestureID != 0 && 0 < m.width <= 10000 && 0 < m.height <= 10000 && m.x < m.width && m.y < m.height
    && m.final == (m.kind == UP || m.kind == CANCEL)
    && m.keyCode == 0 && m.repeat == 0
    && if m.version >= CURRENT_VERSION then
         if m.kind == UP then
           || (m.gestureKind == GESTURE_TAP && m.durationMS == 0)
           || (m.gestureKind == GESTURE_SWIPE && MIN_SWIPE_MS <= m.durationMS <= MAX_SWIPE_MS)
         else m.gestureKind == GESTURE_UNSPECIFIED && m.durationMS == 0
       else m.gestureKind == GESTURE_UNSPECIFIED && m.durationMS == 0 && m.followers == []
  }

  predicate NoPoint(m: Message) { m.gestureID == 0 && m.width == 0 && m.height == 0 && m.x == 0 && m.y == 0 }

  predicate NoGesture(m: Message) { m.gestureKind == GESTURE_UNSPECIFIED && m.durationMS == 0 }

  predicate Valid(m: Message) {
    && m.sequence != 0 && m.generation != 0 && m.timestampMS >= 0
    && if IsTouch(m.kind) then ValidTouch(m)
       else if m.kind == KEY then
         m.final && NoPoint(m) && 0 < m.keyCode <= 10000 && m.repeat == 1 && NoGesture(m) && m.followers == []
       else if m.kind == SET_FOLLOWERS then
         && m.version >= CURRENT_VERSION && !m.final && NoPoint(m) && m.keyCode == 0 && m.repeat == 0 && NoGesture(m)
         && ValidIds(m.followers)
       else false
  }

  /** A message is checked field by field, the first failure ending it. */
  method Validate(m: Message) returns (valid: bool)
    ensures valid == Valid(m)
  {
    if m.sequence == 0 || m.generation == 0 || m.timestampMS < 0 {
      return false;
    }
    if m.kind == DOWN || m.kind == MOVE || m.kind == UP || m.kind == CANCEL {
      valid := ValidateTouch(m);
    } else if m.kind == KEY {
      valid := !(!m.final || m.gestureID != 0 || m.width != 0 || m.height != 0 || m.x != 0 || m.y != 0 || m.keyCode == 0
                 || m.keyCode > 10000 || m.repeat != 1 || m.gestureKind != GESTURE_UNSPECIFIED || m.durationMS != 0
                 || m.followers != []);
    } else if m.kind == SET_FOLLOWERS {
      if m.version < CURRENT_VERSION || m.final || m.gestureID != 0 || m.width != 0 || m.height != 0 || m.x != 0 || m.y != 0
         || m.keyCode != 0 || m.repeat != 0 || m.gestureKind != GESTURE_UNSPECIFIED || m.durationMS != 0 {
        return false;
      }
      valid := ValidateFollowers(m.followers);
    } else {
      valid := false;
    }
  }

  method ValidateTouch(m: Message) returns (valid: bool)
    requires IsTouch(m.kind)
    ensures valid == ValidTouch(m)
  {
    if m.gestureID == 0 || m.width == 0 || m.height == 0 || m.width > 10000 || m.height > 10000 || m.x >= m.width
       || m.y >= m.height {
      return false;
    }
    var terminal := m.kind == UP || m.kind == CANCEL;
    if m.final != terminal {
      return false;
    }
    if m.keyCode != 0 || m.repeat != 0 {
      return false;
    }
    if m.version >= CURRENT_VERSION {
      if m.kind == UP {
        if m.gestureKind != GESTURE_TAP && m.gestureKind != GESTURE_SWIPE {
          return false;
        }
        if m.gestureKind == GESTURE_TAP && m.durationMS != 0 {
          return false;
        }
        if m.gestureKind == GESTURE_SWIPE && (m.durationMS < MIN_SWIPE_MS || m.durationMS > MAX_SWIPE_MS) {
          return false;
        }
      } else if m.gestureKind != GESTURE_UNSPECIFIED || m.durationMS != 0 {
        return false;
      }
    } else if m.gestureKind != GESTURE_UNSPECIFIED || m.durationMS != 0 || m.followers != [] {
      return false;
    }
    return true;
  }

  /** What every valid message has, and what one of each kind has besides. */
  lemma ValidExactly(m: Message)
    ensures var positioned := 0 < m.width <= 10_000 && 0 < m.height <= 10_000 && m.x < m.width && m.y < m.height;
            var nowhere := m.width == m.height == m.x == m.y == 0 && m.gestureID == 0;
            var plain := m.gestureKind == 0 && m.durationMS == 0;
            Valid(m) <==>
            && m.sequence > 0 && m.generation > 0 && m.timestampMS >= 0 && 1 <= m.kind <= 6
            && (m.kind <= 4 ==> m.gestureID > 0 && positioned && m.keyCode == m.repeat == 0)
            && (m.kind <= 2 ==> !m.final) && (3 <= m.kind <= 5 ==> m.final)
            && (m.kind == 5 ==> nowhere && 0 < m.keyCode <= 10_000 && m.repeat == 1)
            && (m.kind == 6 ==> m.version >= 2 && !m.final && nowhere && m.keyCode == m.repeat == 0 && ValidIds(m.followers))
            && (m.kind == 3 && m.version >= 2 ==>
                  (m.gestureKind == 1 && m.durationMS == 0) || (m.gestureKind == 2 && 16 <= m.durationMS <= 10_000))
            && (m.kind != 3 || m.version < 2 ==> plain)
            && (m.kind == 5 || (m.kind <= 4 && m.version < 2) ==> |m.followers| == 0)
  {
    hide ValidIds;
  }

  // ----- The follower payload

  function IdBytes(ids: seq<Id>): seq<byte> {
    if ids == [] then [] else PutBE(2, |ids[0]|) + ids[0] + IdBytes(ids[1..])
  }

  function Payload(ids: seq<Id>): seq<byte> { PutBE(2, |ids|) + IdBytes(ids) }

  /** The id at an offset, after its two length bytes. */
  function IdAt(d: seq<byte>, at: nat): (id: Option<Id>)
    requires at <= |d|
    ensures id.Some? ==> at + 2 + |id.value| <= |d|
  {
    if |d| - at < 2 then None
    else
      var length := BE(d[at..at + 2]);
      if length == 0 || length > MAX_ID || |d| - at - 2 < length then None
      else Some(d[at + 2..at + 2 + length])
  }

  function Prepend(read: seq<Id>, rest: Option<seq<Id>>): Option<seq<Id>> {
    if rest.None? then None else Some(read + rest.value)
  }

  /** This many ids from an offset on, filling the bytes exactly. */
  function ReadIds(d: seq<byte>, at: nat, count: nat): Option<seq<Id>>
    requires at <= |d|
    decreases count
  {
    if count == 0 then if at == |d| then Some([]) else None
    else
      var id := IdAt(d, at);
      if id.None? then None else Prepend([id.value], ReadIds(d, at + 2 + |id.value|, count - 1))
  }

  function ReadPayload(d: seq<byte>): Option<seq<Id>> {
    if |d| < 2 || BE(d[..2]) > MAX_FOLLOWERS then None
    else
      var ids := ReadIds(d, 2, BE(d[..2]));
      if ids.Some? && ValidIds(ids.value) then ids else None
  }

  lemma PrependMore(read: seq<Id>, id: Id, rest: Option<seq<Id>>)
    ensures Prepend(read, Prepend([id], rest)) == Prepend(read + [id], rest)
    ensures Prepend([], rest) == rest && Prepend(read, Some([])) == Some(read)
  {
    if rest.Some? {
      assert read + ([id] + rest.value) == read + [id] + rest.value && [] + rest.value == rest.value;
    }
    assert read + [] == read;
  }

  method DecodeId(data: seq<byte>, at: nat) returns (id: Option<Id>)
    requires at <= |data|
    ensures id == IdAt(data, at)
  {
    if |data| - at < 2 {
      return None;
    }
    var length := BE(data[at..at + 2]);
    var offset := at + 2;
    if length == 0 || length > MAX_ID || |data| - offset < length {
      return None;
    }
    return Some(data[offset..offset + length]);
  }

  /** The decoder's loop: an offset that walks the payload. */
  method DecodeFollowers(data: seq<byte>) returns (ids: Option<seq<Id>>)
    ensures ids == ReadPayload(data)
  {
    if |data| < 2 {
      return None;
    }
    var count := BE(data[..2]);
    if count > MAX_FOLLOWERS {
      return None;
    }
    var followers: seq<Id> := [];
    var offset := 2;
    PrependMore([], [], ReadIds(data, 2, count));
    for index := 0 to count
      invariant 2 <= offset <= |data|
      invariant ReadIds(data, 2, count) == Prepend(followers, ReadIds(data, offset, count - index))
    {
      hide IdAt, ValidIds, BE;
      var id := DecodeId(data, offset);
      if id.None? {
        return None;
      }
      PrependMore(followers, id.value, ReadIds(data, offset + 2 + |id.value|, count - index - 1));
      followers := followers + [id.value];
      offset := offset + 2 + |id.value|;
    }
    PrependMore(followers, [], None);
    if offset != |data| {
      return None;
    }
    var valid := ValidateFollowers(followers);
    return if valid then Some(followers) else None;
  }

  method ValidateFollowers(ids: seq<Id>) returns (valid: bool)
    ensures valid == ValidIds(ids)
    ensures valid <==> |ids| <= 64 && forall k :: 0 <= k < |ids| ==> 1 <= |ids[k]| <= 128 && IsPlain(ids[k])
  {
    if |ids| > MAX_FOLLOWERS {
      return false;
    }
    for k := 0 to |ids|
      invariant forall j :: 0 <= j < k ==> 0 < |ids[j]| <= MAX_ID && IsPlain(ids[j])
    {
      if ids[k] == [] || |ids[k]| > MAX_ID || !IsPlain(ids[k]) {
        return false;
      }
    }
    return true;
  }

  predicate Storable(ids: seq<Id>) { forall k :: 0 <= k < |ids| ==> 0 < |ids[k]| <= MAX_ID }

  /** An id's printing stands at an offset. */
  predicate PrintedAt(d: seq<byte>, at: nat, id: Id) {
    at + 2 + |id| <= |d| && d[at..at + 2] == PutBE(2, |id|) && d[at + 2..at + 2 + |id|] == id
  }

  /** An id is read at an offset exactly when its printing stands there. */
  lemma IdAtIsPrinted(d: seq<byte>, at: nat, id: Id)
    requires at <= |d| && 0 < |id| <= MAX_ID
    ensures IdAt(d, at) == Some(id) <==> PrintedAt(d, at, id)
  {
    Widths();
    hide PutBE, BE, Pow256;
    if at + 2 <= |d| {
      WriteBackBE(d[at..at + 2]);
      ReadBackBE(2, |id|);
    }
  }

  lemma IdAtIsStorable(d: seq<byte>, at: nat)
    requires at <= |d|
    ensures IdAt(d, at).Some? ==> 0 < |IdAt(d, at).value| <= MAX_ID
  {
  }

  lemma Pieces(q: seq<byte>, a: seq<byte>, b: seq<byte>, c: seq<byte>)
    ensures q == a + b + c <==>
            |q| >= |a| + |b| && q[..|a|] == a && q[|a|..|a| + |b|] == b && q[|a| + |b|..] == c
  {
    if |q| >= |a| + |b| {
      assert q == q[..|a|] + q[|a|..|a| + |b|] + q[|a| + |b|..];
    }
    if q == a + b + c {
      assert (a + b + c)[..|a|] == a;
      assert (a + b + c)[|a|..|a| + |b|] == b;
      assert (a + b + c)[|a| + |b|..] == c;
    }
  }

  lemma PrintedThenRest(d: seq<byte>, at: nat, id: Id, rest: seq<byte>)
    requires at <= |d|
    ensures d[at..] == PutBE(2, |id|) + id + rest <==> PrintedAt(d, at, id) && d[at + 2 + |id|..] == rest
  {
    hide PutBE;
    Pieces(d[at..], PutBE(2, |id|), id, rest);
    if at + 2 + |id| <= |d| {
      SuffixSlices(d, at, 2, 2 + |id|);
    }
  }

  lemma SuffixSlices(d: seq<byte>, at: nat, i: nat, j: nat)
    requires i <= j && at + j <= |d|
    ensures d[at..][..i] == d[at..at + i] && d[at..][i..j] == d[at + i..at + j] && d[at..][j..] == d[at + j..]
  {
    SliceOfSlice(d, at, |d|, i, j);
    assert d[at..] == d[at..|d|];
  }

  /** Reading ids gives those that were printed, and only their printing reads as them. */
  lemma {:induction false} IdsReadBack(d: seq<byte>, at: nat, ids: seq<Id>)
    requires at <= |d|
    ensures ReadIds(d, at, |ids|) == Some(ids) <==> Storable(ids) && d[at..] == IdBytes(ids)
    decreases |ids|
  {
    hide PutBE, BE;
    if ids == [] {
    } else {
      PrintedThenRest(d, at, ids[0], IdBytes(ids[1..]));
      IdAtIsStorable(d, at);
      hide IdAt;
      assert ids == [ids[0]] + ids[1..];
      assert Storable(ids) <==> 0 < |ids[0]| <= MAX_ID && Storable(ids[1..]) by {
        assert forall k :: 0 < k < |ids| ==> ids[k] == ids[1..][k - 1];
      }
      hide Storable, PrintedAt;
      if 0 < |ids[0]| <= MAX_ID {
        IdAtIsPrinted(d, at, ids[0]);
        if IdAt(d, at) == Some(ids[0]) {
          IdsReadBack(d, at + 2 + |ids[0]|, ids[1..]);
        }
      }
    }
  }

  lemma {:induction false} ReadIdsCount(d: seq<byte>, at: nat, count: nat)
    requires at <= |d|
    ensures var ids := ReadIds(d, at, count); ids.Some? ==> |ids.value| == count
    decreases count
  {
    if count > 0 && IdAt(d, at).Some? {
      ReadIdsCount(d, at + 2 + |IdAt(d, at).value|, count - 1);
    }
  }

  /** The payload codec is canonical: a payload reads as valid ids exactly when it is their one printing. */
  lemma PayloadIsCanonical(d: seq<byte>, ids: seq<Id>)
    ensures ReadPayload(d) == Some(ids) <==> ValidIds(ids) && d == Payload(ids)
  {
    Widths();
    hide Pow256, PutBE, BE, ReadIds, IdBytes;
    if |d| >= 2 {
      IdsReadBack(d, 2, ids);
      assert d == d[..2] + d[2..];
      if ValidIds(ids) && d == Payload(ids) {
        ReadBackBE(2, |ids|);
        assert d[..2] == PutBE(2, |ids|) && d[2..] == IdBytes(ids);
      }
      if ReadPayload(d) == Some(ids) {
        ReadIdsCount(d, 2, BE(d[..2]));
        WriteBackBE(d[..2]);
      }
    }
  }

  lemma {:induction false} IdBytesBound(ids: seq<Id>)
    requires Storable(ids)
    ensures |IdBytes(ids)| <= (2 + MAX_ID) * |ids|
  {
    if ids != [] {
      IdBytesBound(ids[1..]);
    }
  }

  // ----- The fixed header

  function Head(version: byte, kind: byte, flags: byte): seq<byte> { [version, kind, flags, 0, 0, 0, 0, 0] }

  function Four64(a: nat, b: nat, c: nat, d: nat): seq<byte> { PutBE(8, a) + PutBE(8, b) + PutBE(8, c) + PutBE(8, d) }

  function Six32(a: nat, b: nat, c: nat, d: nat, e: nat, f: nat): seq<byte> {
    Three32(a, b, c) + Three32(d, e, f)
  }

  function Tail(durationMS: nat, gestureKind: byte): seq<byte> { PutBE(4, durationMS) + [gestureKind, 0, 0, 0] }

  function Signed(v: nat): int { if v < TWO_63 then v else v - TWO_64 }

  /** The bits the decoder does not read, cleared. */
  function ClearIgnored(w: seq<byte>): seq<byte>
    requires |w| >= 3
  {
    w[2 := w[2] % 2]
  }

  function Encode(m: Message): seq<byte>
    requires m.timestampMS >= 0
  {
    Head(m.version, m.kind, if m.final then 1 else 0)
    + Four64(m.sequence, m.gestureID, m.timestampMS, m.generation)
    + Six32(m.width, m.height, m.x, m.y, m.keyCode, m.repeat)
    + Tail(m.durationMS, m.gestureKind)
    + if m.kind == SET_FOLLOWERS then Payload(m.followers) else []
  }

  predicate Zero(s: seq<byte>) { forall k :: 0 <= k < |s| ==> s[k] == 0 }

  function Decode(d: seq<byte>): Option<Message> {
    if !(SIZE <= |d| <= MAX_SIZE) then None
    else if d[0] != VERSION && d[0] != CURRENT_VERSION then None
    else if !Zero(d[3..8]) || !Zero(if d[0] == VERSION then d[64..72] else d[69..72]) then None
    else
      var legacy := Message(d[0], d[1], d[2] % 2 == 1, U64(d, 8), U64(d, 16), Signed(U64(d, 24)), U64(d, 32),
                            U32(d, 40), U32(d, 44), U32(d, 48), U32(d, 52), U32(d, 56), U32(d, 60),
                            GESTURE_UNSPECIFIED, 0, []);
      if d[0] == VERSION then
        if |d| == SIZE && Valid(legacy) then Some(legacy) else None
      else
        var current := legacy.(gestureKind := d[68], durationMS := U32(d, 64));
        if current.kind == SET_FOLLOWERS then
          var ids := ReadPayload(d[SIZE..]);
          if ids.Some? && Valid(current.(followers := ids.value)) then Some(current.(followers := ids.value)) else None
        else if |d| == SIZE && Valid(current) then Some(current) else None
  }

  /** What the layout can carry: a stated version, and followers only in a message that selects them. */
  predicate Encodable(m: Message) {
    && (m.version == VERSION || m.version == CURRENT_VERSION)
    && (m.kind != SET_FOLLOWERS ==> m.followers == [])
    && m.timestampMS < TWO_63
  }

  lemma HeaderSlices(m: Message, d: seq<byte>)
    requires m.timestampMS >= 0 && d == Encode(m)
    ensures |d| >= SIZE
    ensures d[..8] == Head(m.version, m.kind, if m.final then 1 else 0)
    ensures d[8..40] == Four64(m.sequence, m.gestureID, m.timestampMS, m.generation)
    ensures d[40..64] == Six32(m.width, m.height, m.x, m.y, m.keyCode, m.repeat)
    ensures d[64..72] == Tail(m.durationMS, m.gestureKind)
    ensures d[72..] == if m.kind == SET_FOLLOWERS then Payload(m.followers) else []
  {
    hide PutBE, Payload;
  }

  lemma FourSlices(d: seq<byte>, a: nat, b: nat, c: nat, e: nat)
    requires |d| >= 40 && d[8..40] == Four64(a, b, c, e)
    ensures d[8..16] == PutBE(8, a) && d[16..24] == PutBE(8, b) && d[24..32] == PutBE(8, c) && d[32..40] == PutBE(8, e)
  {
    hide PutBE;
    var q := d[8..40];
    assert q[..8] == PutBE(8, a) && q[8..16] == PutBE(8, b) && q[16..24] == PutBE(8, c) && q[24..] == PutBE(8, e);
    assert d[8..16] == q[..8] && d[16..24] == q[8..16] && d[24..32] == q[16..24] && d[32..40] == q[24..];
  }

  lemma SixSlices(d: seq<byte>, a: nat, b: nat, c: nat, e: nat, f: nat, g: nat)
    requires |d| >= 64 && d[40..64] == Six32(a, b, c, e, f, g)
    ensures d[40..44] == PutBE(4, a) && d[44..48] == PutBE(4, b) && d[48..52] == PutBE(4, c)
    ensures d[52..56] == PutBE(4, e) && d[56..60] == PutBE(4, f) && d[60..64] == PutBE(4, g)
  {
    hide PutBE;
    var q := d[40..64];
    assert |Three32(a, b, c)| == 12;
    assert q[..12] == Three32(a, b, c) && q[12..] == Three32(e, f, g);
    assert d[40..52] == q[..12] && d[52..64] == q[12..];
    hide Three32, Six32;
    ThreeSlices(d, 40, a, b, c);
    ThreeSlices(d, 52, e, f, g);
  }

  /** The header of an encoded message, field by field. */
  lemma HeaderReadsBack(m: Message, d: seq<byte>)
    requires 0 <= m.timestampMS < TWO_63 && d == Encode(m)
    ensures |d| >= SIZE && d[0] == m.version && d[1] == m.kind && d[2] == if m.final then 1 else 0
    ensures U64(d, 8) == m.sequence && U64(d, 16) == m.gestureID && U64(d, 24) == m.timestampMS && U64(d, 32) == m.generation
    ensures U32(d, 40) == m.width && U32(d, 44) == m.height && U32(d, 48) == m.x && U32(d, 52) == m.y
    ensures U32(d, 56) == m.keyCode && U32(d, 60) == m.repeat && U32(d, 64) == m.durationMS && d[68] == m.gestureKind
    ensures Zero(d[3..8]) && Zero(d[69..72])
  {
    HeaderSlices(m, d);
    hide PutBE, BE, Payload, U64, U32, Encode;
    FourSlices(d, m.sequence, m.gestureID, m.timestampMS, m.generation);
    SixSlices(d, m.width, m.height, m.x, m.y, m.keyCode, m.repeat);
    Read64(d, 8, m.sequence);
    Read64(d, 16, m.gestureID);
    Read64(d, 24, m.timestampMS);
    Read64(d, 32, m.generation);
    Read32(d, 40, m.width);
    Read32(d, 44, m.height);
    Read32(d, 48, m.x);
    Read32(d, 52, m.y);
    Read32(d, 56, m.keyCode);
    Read32(d, 60, m.repeat);
    TailSlices(m, d);
    assert d[..8][0] == d[0] && d[..8][1] == d[1] && d[..8][2] == d[2];
    forall k | 0 <= k < 5 ensures d[3..8][k] == 0 {
      assert d[..8][k + 3] == 0;
    }
  }

  lemma TailSlices(m: Message, d: seq<byte>)
    requires |d| >= SIZE && d[64..72] == Tail(m.durationMS, m.gestureKind)
    ensures U32(d, 64) == m.durationMS && d[68] == m.gestureKind && Zero(d[69..72])
  {
    hide U32, PutBE;
    var q := d[64..72];
    assert q[..4] == PutBE(4, m.durationMS) && q[4] == m.gestureKind && q[5] == 0 && q[6] == 0 && q[7] == 0;
    assert d[64..68] == q[..4];
    Read32(d, 64, m.durationMS);
    assert d[68] == q[4] && d[69..72] == q[5..8];
  }

  /** Every valid message the layout can carry fits the channel's bound. */
  lemma EncodedFits(m: Message)
    requires Valid(m)
    ensures SIZE <= |Encode(m)| <= SIZE + 2 + MAX_FOLLOWERS * (2 + MAX_ID) < MAX_SIZE
  {
    hide PutBE, IdBytes;
    if m.kind == SET_FOLLOWERS {
      IdBytesBound(m.followers);
    }
  }

  /** Decoding returns every valid message the layout can carry. */
  lemma DecodeUndoesEncode(m: Message)
    requires Valid(m) && Encodable(m)
    ensures Decode(Encode(m)) == Some(m)
  {
    hide Encode, U64, U32, Payload, ReadPayload, PutBE, BE, ValidIds;
    var d := Encode(m);
    EncodedFits(m);
    HeaderReadsBack(m, d);
    HeaderSlices(m, d);
    if m.version == VERSION {
      forall k | 0 <= k < 8 ensures d[64..72][k] == 0 {
        LegacyTail(m, d);
      }
    }
    if m.kind == SET_FOLLOWERS {
      PayloadIsCanonical(d[SIZE..], m.followers);
    }
  }

  lemma LegacyTail(m: Message, d: seq<byte>)
    requires |d| >= SIZE && d[64..72] == Tail(0, GESTURE_UNSPECIFIED) && m.durationMS == 0
    ensures Zero(d[64..72])
  {
    assert PutBE(4, 0) == [0, 0, 0, 0] by {
      assert PutBE(1, 0) == [0] && PutBE(2, 0) == [0, 0] && PutBE(3, 0) == [0, 0, 0];
    }
  }

  // ----- The other direction

  lemma FourJoined(d: seq<byte>)
    requires |d| >= 40
    ensures Four64(BE(d[8..16]), BE(d[16..24]), BE(d[24..32]), BE(d[32..40])) == d[8..40]
  {
    hide PutBE, BE;
    WriteBackBE(d[8..16]);
    WriteBackBE(d[16..24]);
    WriteBackBE(d[24..32]);
    WriteBackBE(d[32..40]);
    assert d[8..40] == d[8..16] + d[16..24] + d[24..32] + d[32..40];
  }

  lemma SixJoined(d: seq<byte>)
    requires |d| >= 64
    ensures Six32(BE(d[40..44]), BE(d[44..48]), BE(d[48..52]), BE(d[52..56]), BE(d[56..60]), BE(d[60..64])) == d[40..64]
  {
    ThreeJoined(d, 40);
    ThreeJoined(d, 52);
    hide Three32, BE;
    assert d[40..64] == d[40..52] + d[52..64];
  }

  lemma HeadJoined(d: seq<byte>)
    requires |d| >= 8 && Zero(d[3..8])
    ensures Head(d[0], d[1], d[2] % 2) == ClearIgnored(d)[..8]
  {
    forall k | 3 <= k < 8 ensures d[k] == 0 {
      assert d[3..8][k - 3] == 0;
    }
  }

  lemma TailJoined(d: seq<byte>)
    requires |d| >= SIZE && Zero(d[69..72])
    ensures Tail(BE(d[64..68]), d[68]) == d[64..72]
  {
    hide PutBE, BE;
    WriteBackBE(d[64..68]);
    forall k | 69 <= k < 72 ensures d[k] == 0 {
      assert d[69..72][k - 69] == 0;
    }
  }

  lemma LegacyTailJoined(d: seq<byte>)
    requires |d| >= SIZE && Zero(d[64..72])
    ensures Zero(d[69..72]) && d[68] == 0 && BE(d[64..68]) == 0
  {
    forall k | 64 <= k < 72 ensures d[k] == 0 {
      assert d[64..72][k - 64] == 0;
    }
    ZeroIsZero(d[64..68]);
  }

  lemma {:induction false} ZeroIsZero(s: seq<byte>)
    requires Zero(s)
    ensures BE(s) == 0
  {
    if s != [] {
      ZeroIsZero(s[..|s| - 1]);
    }
  }

  /** An accepted wire is the printing of what it decodes to, but for the bits the decoder does not read. */
  lemma EncodeUndoesDecode(d: seq<byte>)
    requires Decode(d).Some?
    ensures var m := Decode(d).value;
            Valid(m) && Encodable(m) && |d| >= SIZE && Encode(m) == ClearIgnored(d)
  {
    var m := Decode(d).value;
    HeadAndTail(d);
    Middle(d);
    EncodedParts(m);
    ClearedParts(d);
    Joined(ClearIgnored(d));
    hide *;
  }

  lemma HeadAndTail(d: seq<byte>)
    requires Decode(d).Some?
    ensures var m := Decode(d).value;
            && Valid(m) && Encodable(m) && |d| >= SIZE
            && Head(m.version, m.kind, if m.final then 1 else 0) == ClearIgnored(d)[..8]
            && Tail(m.durationMS, m.gestureKind) == d[64..72]
            && d[72..] == if m.kind == SET_FOLLOWERS then Payload(m.followers) else []
  {
    DecodedFields(d);
    hide *;
    HeadJoined(d);
    TailJoined(d);
  }

  lemma Middle(d: seq<byte>)
    requires Decode(d).Some?
    ensures var m := Decode(d).value;
            && m.timestampMS >= 0 && |d| >= SIZE
            && Four64(m.sequence, m.gestureID, m.timestampMS, m.generation) == d[8..40]
            && Six32(m.width, m.height, m.x, m.y, m.keyCode, m.repeat) == d[40..64]
  {
    DecodedFields(d);
    hide *;
    FourJoined(d);
    SixJoined(d);
  }

  lemma ClearedParts(d: seq<byte>)
    requires |d| >= SIZE
    ensures var c := ClearIgnored(d);
            |c| == |d| && c[8..40] == d[8..40] && c[40..64] == d[40..64] && c[64..72] == d[64..72] && c[72..] == d[72..]
  {
  }

  lemma EncodedParts(m: Message)
    requires m.timestampMS >= 0
    ensures Encode(m) ==
            Head(m.version, m.kind, if m.final then 1 else 0)
            + Four64(m.sequence, m.gestureID, m.timestampMS, m.generation)
            + Six32(m.width, m.height, m.x, m.y, m.keyCode, m.repeat)
            + Tail(m.durationMS, m.gestureKind)
            + if m.kind == SET_FOLLOWERS then Payload(m.followers) else []
  {
  }

  lemma DecodedFields(d: seq<byte>)
    requires Decode(d).Some?
    ensures var m := Decode(d).value;
            && Valid(m) && Encodable(m) && |d| >= SIZE && Zero(d[3..8]) && Zero(d[69..72])
            && m.version == d[0] && m.kind == d[1] && m.final == (d[2] % 2 == 1)
            && m.sequence == BE(d[8..16]) && m.gestureID == BE(d[16..24])
            && m.timestampMS == BE(d[24..32]) && m.generation == BE(d[32..40])
            && m.width == BE(d[40..44]) && m.height == BE(d[44..48]) && m.x == BE(d[48..52])
            && m.y == BE(d[52..56]) && m.keyCode == BE(d[56..60]) && m.repeat == BE(d[60..64])
            && m.durationMS == BE(d[64..68]) && m.gestureKind == d[68]
            && d[72..] == if m.kind == SET_FOLLOWERS then Payload(m.followers) else []
  {
    var m := Decode(d).value;
    if d[0] == VERSION {
      LegacyTailJoined(d);
    }
    if m.kind == SET_FOLLOWERS {
      PayloadIsCanonical(d[SIZE..], m.followers);
    }
    hide BE, ReadPayload, Payload, ValidIds, ValidTouch, Zero;
  }

  lemma Joined(d: seq<byte>)
    requires |d| >= SIZE
    ensures d == d[..8] + d[8..40] + d[40..64] + d[64..72] + d[72..]
  {
  }

  /** Two accepted wires mean the same message exactly when they agree outside the ignored bits. */
  lemma SameMessageSameWire(d: seq<byte>, e: seq<byte>)
    requires Decode(d).Some? && Decode(e).Some?
    ensures Decode(d) == Decode(e) <==> ClearIgnored(d) == ClearIgnored(e)
  {
    EncodeUndoesDecode(d);
    EncodeUndoesDecode(e);
    hide Encode, Valid, Decode;
    DecodeUndoesEncode(Decode(d).value);
    DecodeUndoesEncode(Decode(e).value);
  }

  /** Whatever stands in the ignored bits of an accepted wire, it is accepted and means the same. */
  lemma IgnoredBitsAreIgnored(m: Message, flags: byte)
    requires Valid(m) && Encodable(m) && flags % 2 == if m.final then 1 else 0
    ensures |Encode(m)| >= SIZE && Decode(Encode(m)[2 := flags]) == Some(m)
  {
    var d := Encode(m);
    EncodedFits(m);
    DecodeUndoesEncode(m);
    var e := d[2 := flags];
    HeaderReadsBack(m, d);
    assert e[3..8] == d[3..8] && e[64..72] == d[64..72] && e[69..72] == d[69..72] && e[SIZE..] == d[SIZE..];
    SameWords(d, e);
    hide Encode, U64, U32, Valid, ReadPayload;
  }

  lemma SameWords(d: seq<byte>, e: seq<byte>)
    requires |d| == |e| >= SIZE && d[3..] == e[3..]
    ensures U64(d, 8) == U64(e, 8) && U64(d, 16) == U64(e, 16) && U64(d, 24) == U64(e, 24) && U64(d, 32) == U64(e, 32)
    ensures U32(d, 40) == U32(e, 40) && U32(d, 44) == U32(e, 44) && U32(d, 48) == U32(e, 48) && U32(d, 52) == U32(e, 52)
    ensures U32(d, 56) == U32(e, 56) && U32(d, 60) == U32(e, 60) && U32(d, 64) == U32(e, 64)
    ensures d[68] == e[68]
  {
    hide BE;
    assert forall k :: 3 <= k < |d| ==> d[k] == d[3..][k - 3] && e[k] == e[3..][k - 3];
    assert d[8..16] == e[8..16] && d[16..24] == e[16..24] && d[24..32] == e[24..32] && d[32..40] == e[32..40];
    assert d[40..44] == e[40..44] && d[44..48] == e[44..48] && d[48..52] == e[48..52] && d[52..56] == e[52..56];
    assert d[56..60] == e[56..60] && d[60..64] == e[60..64] && d[64..68] == e[64..68];
  }
}
