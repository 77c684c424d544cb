/**
 Which of a session's calls become pictures, and what each picture is, said of the calls by their places alone: whose
 sets declare it, at which size, with which NAL units, and for how long it is shown.
 */
module Mp4Pictures {
  import opened Bytes
  import opened Wrappers
  import opened AnnexB
  import Mp4Boxes
  import opened Mp4Sample
  import opened Mp4Reader
  import opened Mp4Session
  import opened Mp4Writer

  // ----- A unit by itself

  /** One of the unit's NAL units is neither a sequence nor a picture parameter set. */
  ghost predicate HasPicture(unit: seq<byte>) {
    exists i :: 0 <= i < |Nals(unit)| && Nals(unit)[i][0] % 32 != 7 && Nals(unit)[i][0] % 32 != 8
  }

  lemma {:induction false} PicturesAmong(nals: seq<Nal>)
    ensures PictureNals(nals) != [] <==> exists i :: 0 <= i < |nals| && nals[i][0] % 32 != 7 && nals[i][0] % 32 != 8
  {
    if nals != [] {
      PicturesAmong(nals[1..]);
      assert forall i :: 0 < i < |nals| ==> nals[i] == nals[1..][i - 1];
      if PictureNals(nals[1..]) != [] {
        var i :| 0 <= i < |nals| - 1 && nals[1..][i][0] % 32 != 7 && nals[1..][i][0] % 32 != 8;
        assert nals[i + 1][0] % 32 != 7;
      }
    }
  }

  // ----- The calls by their places

  predicate Carries(calls: seq<Call>, c: nat) { c < |calls| && calls[c].Unit? && CarriesSets(calls[c].unit) }

  function SetsOf(calls: seq<Call>, c: nat): seq<byte> {
    if c < |calls| && calls[c].Unit? then Sets(calls[c].unit) else []
  }

  function Earlier(shown: seq<nat>, c: nat): set<nat> { set v | v in shown && v < c }

  /** Of these calls, the last that carries both sets. */
  ghost predicate Newest(calls: seq<Call>, among: set<nat>, u: nat) {
    u in among && Carries(calls, u) && forall v :: v in among && u < v ==> !Carries(calls, v)
  }

  /** Where the sets of call c come from: itself, or the newest of the pictures before it. */
  ghost predicate Supplies(calls: seq<Call>, earlier: set<nat>, c: nat, u: nat) {
    if Carries(calls, c) then u == c else Newest(calls, earlier, u)
  }

  /** Call c becomes a picture: it has one, a first one is a key frame, and there are sets that can be declared. */
  ghost predicate Shown(calls: seq<Call>, earlier: set<nat>, c: nat) {
    && c < |calls| && calls[c].Unit? && HasPicture(calls[c].unit) && (earlier == {} ==> calls[c].key)
    && exists u :: Supplies(calls, earlier, c, u) && AvcC(SetsOf(calls, u)).Record?
  }

  datatype Size = Size(width: nat, height: nat)

  predicate Resizes(call: Call) { call.SetSize? && call.width > 0 && call.height > 0 }

  /** The size before call c: the newest a call has set, or the first. */
  ghost predicate SizedAt(calls: seq<Call>, c: nat, first: Size, size: Size) {
    && c <= |calls|
    && ((forall s :: 0 <= s < c ==> !Resizes(calls[s])) ==> size == first)
    && (forall s :: (0 <= s < c && Resizes(calls[s]) && forall t :: s < t < c ==> !Resizes(calls[t])) ==>
          size == Size(calls[s].width, calls[s].height))
  }

  /** A declaration of the sets that call c is supplied with. */
  ghost predicate DeclaredAt(calls: seq<Call>, earlier: set<nat>, c: nat, avcC: seq<byte>) {
    exists u :: Supplies(calls, earlier, c, u) && AvcC(SetsOf(calls, u)) == Record(avcC)
  }

  /** The size before call c, in the 16 bits a declaration has for each side. */
  ghost predicate StatedAt(calls: seq<Call>, c: nat, first: Size, width: nat, height: nat) {
    exists size :: SizedAt(calls, c, first, size) && width == size.width % TWO_16 && height == size.height % TWO_16
  }

  /** What the i-th picture is. */
  ghost predicate PictureIs(calls: seq<Call>, shown: seq<nat>, i: nat, first: Size, p: Picture) {
    && i < |shown| && shown[i] < |calls| && calls[shown[i]].Unit?
    && p.key == calls[shown[i]].key && p.nals == PictureNals(Nals(calls[shown[i]].unit)) && p.sequence == (i + 1) % TWO_32
    && DeclaredAt(calls, Earlier(shown, shown[i]), shown[i], p.config.avcC)
    && StatedAt(calls, shown[i], first, p.config.width, p.config.height)
  }

  ghost predicate Increasing(shown: seq<nat>) { forall i, j :: 0 <= i < j < |shown| ==> shown[i] < shown[j] }

  // ----- The reference before a call

  /** What the reference knows before call c, when these calls have become pictures. */
  ghost predicate Knows(r: Reference, calls: seq<Call>, c: nat, shown: seq<nat>, first: Size) {
    && c <= |calls| && Increasing(shown) && (forall v :: v in shown ==> v < c)
    && (shown == [] <==> r.sets == [])
    && (shown != [] ==> exists u :: Newest(calls, Earlier(shown, c), u) && r.sets == SetsOf(calls, u))
    && SizedAt(calls, c, first, Size(r.width, r.height))
    && r.sequence == |shown| % TWO_32
  }

  lemma NewestIsOne(calls: seq<Call>, among: set<nat>, u: nat, v: nat)
    requires Newest(calls, among, u) && Newest(calls, among, v)
    ensures u == v
  {
  }

  lemma EarlierEmpty(shown: seq<nat>, c: nat)
    requires forall v :: v in shown ==> v < c
    ensures Earlier(shown, c) == {} <==> shown == []
  {
    if shown != [] {
      assert shown[0] in shown;
      assert shown[0] in Earlier(shown, c);
    }
  }

  /** The reference takes a unit exactly when it becomes a picture, and declares it with the sets that are supplied. */
  lemma TakenIsShown(r: Reference, calls: seq<Call>, c: nat, shown: seq<nat>, first: Size)
    requires Knows(r, calls, c, shown, first) && c < |calls| && calls[c].Unit?
    ensures var call, earlier := calls[c], Earlier(shown, c);
            && (Accepts(r, call.unit, call.key) <==> Shown(calls, earlier, c))
            && (Accepts(r, call.unit, call.key) ==>
                  exists u :: Supplies(calls, earlier, c, u) && SetsOf(calls, u) == LatestSets(r, call.unit))
  {
    var call, earlier := calls[c], Earlier(shown, c);
    PicturesAmong(Nals(call.unit));
    BothSetsAreSets(call.unit);
    EarlierEmpty(shown, c);
    hide AvcC, CarriesSets, Sets, Nals, PictureNals, Earlier, SizedAt, Increasing;
    assert HasPicture(call.unit) <==> PictureNals(Nals(call.unit)) != [];
    if CarriesSets(call.unit) {
      assert Supplies(calls, earlier, c, c);
      assert forall u :: Supplies(calls, earlier, c, u) ==> u == c;
    } else if shown != [] {
      var u :| Newest(calls, earlier, u) && r.sets == SetsOf(calls, u);
      assert Supplies(calls, earlier, c, u);
      forall v | Supplies(calls, earlier, c, v) ensures v == u {
        NewestIsOne(calls, earlier, u, v);
      }
    } else {
      assert forall u :: !Supplies(calls, earlier, c, u);
    }
  }

  lemma SizeNext(calls: seq<Call>, c: nat, first: Size, size: Size)
    requires SizedAt(calls, c, first, size) && c < |calls|
    ensures SizedAt(calls, c + 1, first, if Resizes(calls[c]) then Size(calls[c].width, calls[c].height) else size)
  {
    hide Resizes;
  }

  lemma EarlierNext(shown: seq<nat>, c: nat)
    requires forall v :: v in shown ==> v < c
    ensures Earlier(shown, c + 1) == Earlier(shown, c)
    ensures Earlier(shown + [c], c + 1) == Earlier(shown, c) + {c}
  {
  }

  /** A call that becomes no picture changes at most the size. */
  lemma KnowsPast(r: Reference, calls: seq<Call>, c: nat, shown: seq<nat>, first: Size)
    requires Knows(r, calls, c, shown, first) && c < |calls|
    ensures calls[c].Unit? ==> Knows(r, calls, c + 1, shown, first)
    ensures calls[c].SetSize? ==>
              Knows(if Resizes(calls[c]) then r.(width := calls[c].width, height := calls[c].height) else r,
                    calls, c + 1, shown, first)
  {
    SizeNext(calls, c, first, Size(r.width, r.height));
    EarlierNext(shown, c);
    hide SizedAt, Earlier, Carries, SetsOf, Newest, Increasing;
  }

  lemma KnowsThen(r: Reference, calls: seq<Call>, c: nat, shown: seq<nat>, first: Size)
    requires Knows(r, calls, c, shown, first) && c < |calls| && calls[c].Unit?
    requires Accepts(r, calls[c].unit, calls[c].key)
    ensures Knows(Advance(r, calls[c].unit, calls[c].pts), calls, c + 1, shown + [c], first)
  {
    hide SizedAt, SetsOf, AvcC, CarriesSets, Sets, Advance, Accepts, LatestSets, Earlier, Newest, Supplies, Shown, Increasing;
    hide Resizes, PictureOf, PictureNals, Nals;
    var call := calls[c];
    SizeNext(calls, c, first, Size(r.width, r.height));
    NotResized(call);
    EarlierNext(shown, c);
    TakenIsShown(r, calls, c, shown, first);
    AdvanceIs(r, call.unit, call.key, call.pts, |shown|);
    IncreasingThen(shown, c);
    var u :| Supplies(calls, Earlier(shown, c), c, u) && SetsOf(calls, u) == LatestSets(r, call.unit);
    EarlierIs(shown, c);
    NewestNext(calls, Earlier(shown, c), c, u);
  }

  lemma AdvanceIs(r: Reference, unit: seq<byte>, key: bool, pts: uint64, n: nat)
    requires Accepts(r, unit, key) && r.sequence == n % TWO_32
    ensures var next := Advance(r, unit, pts);
            && next.width == r.width && next.height == r.height && next.sets == LatestSets(r, unit) != []
            && next.sequence == (n + 1) % TWO_32
    ensures var p := PictureOf(r, unit, key, pts);
            && AvcC(LatestSets(r, unit)) == Record(p.config.avcC)
            && p.config.width == r.width % TWO_16 && p.config.height == r.height % TWO_16 && p.key == key
            && p.sequence == (n + 1) % TWO_32 && p.nals == PictureNals(Nals(unit))
  {
    hide AvcC, CarriesSets, Sets, Nals, PictureNals, Mp4Session.NextDuration;
  }

  lemma IncreasingThen(shown: seq<nat>, c: nat)
    requires Increasing(shown) && forall v :: v in shown ==> v < c
    ensures Increasing(shown + [c]) && forall v :: v in shown + [c] ==> v < c + 1
  {
    assert forall i :: 0 <= i < |shown| ==> shown[i] in shown;
  }

  lemma NotResized(call: Call)
    requires call.Unit?
    ensures !Resizes(call)
  {
  }

  lemma EarlierIs(shown: seq<nat>, c: nat)
    ensures forall v :: v in Earlier(shown, c) ==> v < c
  {
  }

  lemma NewestNext(calls: seq<Call>, earlier: set<nat>, c: nat, u: nat)
    requires Supplies(calls, earlier, c, u) && forall v :: v in earlier ==> v < c
    ensures Newest(calls, earlier + {c}, u)
  {
  }

  lemma PictureStands(r: Reference, calls: seq<Call>, c: nat, shown: seq<nat>, first: Size, all: seq<nat>)
    requires Knows(r, calls, c, shown, first) && c < |calls| && calls[c].Unit?
    requires Accepts(r, calls[c].unit, calls[c].key)
    requires |shown| < |all| && all[|shown|] == c && Earlier(all, c) == Earlier(shown, c)
    ensures PictureIs(calls, all, |shown|, first, PictureOf(r, calls[c].unit, calls[c].key, calls[c].pts))
  {
    hide SizedAt, SetsOf, AvcC, CarriesSets, Sets, Advance, Accepts, LatestSets, Earlier, Newest, Supplies, Shown, Increasing;
    hide PictureOf, PictureNals, Nals;
    TakenIsShown(r, calls, c, shown, first);
    var p := PictureOf(r, calls[c].unit, calls[c].key, calls[c].pts);
    AdvanceIs(r, calls[c].unit, calls[c].key, calls[c].pts, |shown|);
    assert StatedAt(calls, c, first, p.config.width, p.config.height);
    assert DeclaredAt(calls, Earlier(shown, c), c, p.config.avcC);
  }

  lemma EarlierSame(shown: seq<nat>, all: seq<nat>, c: nat)
    requires shown <= all && forall i :: |shown| <= i < |all| ==> all[i] >= c
    ensures Earlier(all, c) == Earlier(shown, c)
  {
    forall v | v in Earlier(all, c) ensures v in shown {
      var i :| 0 <= i < |all| && all[i] == v;
      assert i < |shown| && shown[i] == v;
    }
    forall v | v in Earlier(shown, c) ensures v in all {
      var i :| 0 <= i < |shown| && shown[i] == v;
      assert all[i] == v;
    }
  }

  /** From any point of a session on, these calls and no others become pictures. */
  ghost predicate Accounts(calls: seq<Call>, c: nat, shown: seq<nat>, all: seq<nat>, first: Size, m: seq<Picture>) {
    && shown <= all && Increasing(all) && |all| == |shown| + |m|
    && (forall i :: |shown| <= i < |all| ==> c <= all[i] < |calls|)
    && (forall v :: c <= v < |calls| ==> (v in all <==> Shown(calls, Earlier(all, v), v)))
    && (forall i :: 0 <= i < |m| ==> PictureIs(calls, all, |shown| + i, first, m[i]))
  }

  lemma NothingMore(calls: seq<Call>, shown: seq<nat>, first: Size)
    requires Increasing(shown)
    ensures Accounts(calls, |calls|, shown, shown, first, [])
  {
    hide Shown, PictureIs;
  }

  lemma OneNotShown(calls: seq<Call>, c: nat, shown: seq<nat>, all: seq<nat>, first: Size, m: seq<Picture>)
    requires Accounts(calls, c + 1, shown, all, first, m) && c < |calls| && (forall v :: v in shown ==> v < c)
    requires !Shown(calls, Earlier(shown, c), c)
    ensures Accounts(calls, c, shown, all, first, m)
  {
    hide Shown, PictureIs, Earlier, Increasing, Resizes, SetsOf, Carries;
    EarlierSame(shown, all, c);
    assert forall i :: 0 <= i < |shown| ==> all[i] == shown[i] && shown[i] in shown;
    assert forall i :: 0 <= i < |all| ==> all[i] != c;
  }

  lemma OneShown(
    calls: seq<Call>, c: nat, shown: seq<nat>, all: seq<nat>, first: Size, p: Picture, m: seq<Picture>)
    requires Accounts(calls, c + 1, shown + [c], all, first, m) && c < |calls|
    requires Shown(calls, Earlier(shown, c), c) && PictureIs(calls, all, |shown|, first, p)
    ensures Accounts(calls, c, shown, all, first, [p] + m)
  {
    hide Shown, PictureIs, Earlier, Increasing;
    assert all[|shown|] == (shown + [c])[|shown|] == c;
    assert all[|shown|] in all;
    EarlierSame(shown, all, c);
    forall i | 0 <= i < |[p] + m| ensures PictureIs(calls, all, |shown| + i, first, ([p] + m)[i]) {
      if i > 0 {
        assert PictureIs(calls, all, |shown + [c]| + (i - 1), first, m[i - 1]);
      }
    }
  }

  lemma {:induction false} FromHereOn(r: Reference, calls: seq<Call>, c: nat, shown: seq<nat>, first: Size)
    returns (all: seq<nat>)
    requires Knows(r, calls, c, shown, first)
    ensures Accounts(calls, c, shown, all, first, Meaning(r, calls[c..]))
    decreases |calls| - c
  {
    hide Meaning, Accepts, Advance, PictureOf, Shown, PictureIs, SizedAt, Earlier, Accounts;
    MeaningAt(r, calls, c);
    if c == |calls| {
      NothingMore(calls, shown, first);
      return shown;
    }
    KnowsPast(r, calls, c, shown, first);
    match calls[c]
    case SetSize(w, h) =>
      all := FromHereOn(if Resizes(calls[c]) then r.(width := w, height := h) else r, calls, c + 1, shown, first);
      NoUnitNotShown(calls, c, Earlier(shown, c));
      OneNotShown(calls, c, shown, all, first, Meaning(r, calls[c..]));
    case Unit(unit, key, pts) =>
      TakenIsShown(r, calls, c, shown, first);
      if Accepts(r, unit, key) {
        KnowsThen(r, calls, c, shown, first);
        all := FromHereOn(Advance(r, unit, pts), calls, c + 1, shown + [c], first);
        FollowsOn(calls, c, shown, all, first, Meaning(Advance(r, unit, pts), calls[c + 1..]));
        PictureStands(r, calls, c, shown, first, all);
        OneShown(calls, c, shown, all, first, PictureOf(r, unit, key, pts), Meaning(Advance(r, unit, pts), calls[c + 1..]));
      } else {
        all := FromHereOn(r, calls, c + 1, shown, first);
        OneNotShown(calls, c, shown, all, first, Meaning(r, calls[c..]));
      }
  }

  lemma FollowsOn(calls: seq<Call>, c: nat, shown: seq<nat>, all: seq<nat>, first: Size, m: seq<Picture>)
    requires Accounts(calls, c + 1, shown + [c], all, first, m)
    ensures |shown| < |all| && all[|shown|] == c && Earlier(all, c) == Earlier(shown, c)
  {
    assert shown <= all && all[|shown|] == c;
    EarlierSame(shown, all, c);
  }

  lemma MeaningAt(r: Reference, calls: seq<Call>, c: nat)
    requires c <= |calls|
    ensures Meaning(r, calls[c..]) ==
            if c == |calls| then []
            else if calls[c].SetSize? then
              Meaning(if Resizes(calls[c]) then r.(width := calls[c].width, height := calls[c].height) else r, calls[c + 1..])
            else if Accepts(r, calls[c].unit, calls[c].key) then
              [PictureOf(r, calls[c].unit, calls[c].key, calls[c].pts)]
              + Meaning(Advance(r, calls[c].unit, calls[c].pts), calls[c + 1..])
            else Meaning(r, calls[c + 1..])
  {
    if c < |calls| {
      assert calls[c..][0] == calls[c] && calls[c..][1..] == calls[c + 1..];
    }
    hide Accepts, Advance, PictureOf;
  }

  lemma NoUnitNotShown(calls: seq<Call>, c: nat, earlier: set<nat>)
    requires c < |calls| && calls[c].SetSize?
    ensures !Shown(calls, earlier, c)
  {
  }

  /**
   Over a whole session: a call becomes a picture exactly when it has one, it is a key frame if it would be the first, and
   it or the newest picture before it that carried sets has sets that can be declared. Each picture is then its own NAL
   units, under exactly those sets, at the newest size that was set.
   */
  lemma EveryPictureIs(width: nat, height: nat, calls: seq<Call>) returns (shown: seq<nat>)
    ensures var m := Meaning(Reference(width, height, [], None, NOMINAL_DURATION, 0, 0), calls);
            && |shown| == |m| && Increasing(shown)
            && (forall c: nat :: c in shown <==> Shown(calls, Earlier(shown, c), c))
            && (forall i :: 0 <= i < |m| ==> PictureIs(calls, shown, i, Size(width, height), m[i]))
  {
    var r := Reference(width, height, [], None, NOMINAL_DURATION, 0, 0);
    hide Meaning, Earlier, Shown, PictureIs;
    assert Knows(r, calls, 0, [], Size(width, height));
    shown := FromHereOn(r, calls, 0, [], Size(width, height));
    assert calls[0..] == calls;
    forall c: nat | c >= |calls| ensures !Shown(calls, Earlier(shown, c), c) {
      PastTheEnd(calls, Earlier(shown, c), c);
    }
  }

  lemma PastTheEnd(calls: seq<Call>, earlier: set<nat>, c: nat)
    requires c >= |calls|
    ensures !Shown(calls, earlier, c)
  {
  }

  // ----- How long a picture is shown

  /** A picture lasts the device's own delta, cut to 32 bits, or as long as the one before it when the clock does not advance. */
  lemma {:induction false} DurationIs(r: Reference, calls: seq<Call>, k: nat)
    requires 0 < k < |Meaning(r, calls)| == |AcceptedPTS(r, calls)|
    ensures var m, pts := Meaning(r, calls), AcceptedPTS(r, calls);
            m[k].duration == if pts[k] <= pts[k - 1] then m[k - 1].duration
                             else if pts[k] - pts[k - 1] < 0x1_0000_0000 then pts[k] - pts[k - 1]
                             else 0xffff_ffff
    decreases |calls|
  {
    hide Accepts, LatestSets, AvcC;
    match calls[0]
    case SetSize(w, h) => DurationIs(if w > 0 && h > 0 then r.(width := w, height := h) else r, calls[1..], k);
    case Unit(unit, key, pts) =>
      if Accepts(r, unit, key) {
        var next := Advance(r, unit, pts);
        assert Meaning(r, calls)[1..] == Meaning(next, calls[1..]);
        assert AcceptedPTS(r, calls)[1..] == AcceptedPTS(next, calls[1..]);
        if k > 1 {
          DurationIs(next, calls[1..], k - 1);
        } else {
          FirstDurationIs(next, calls[1..]);
        }
      } else {
        DurationIs(r, calls[1..], k);
      }
  }

  lemma {:induction false} FirstDurationIs(r: Reference, calls: seq<Call>)
    requires |Meaning(r, calls)| == |AcceptedPTS(r, calls)| > 0
    ensures Meaning(r, calls)[0].duration == Mp4Session.NextDuration(r, AcceptedPTS(r, calls)[0])
    decreases |calls|
  {
    hide Accepts, LatestSets, AvcC;
    match calls[0]
    case SetSize(w, h) => FirstDurationIs(if w > 0 && h > 0 then r.(width := w, height := h) else r, calls[1..]);
    case Unit(unit, key, pts) => if !Accepts(r, unit, key) { FirstDurationIs(r, calls[1..]); }
  }

  // ----- What the writer counts, and what it refuses

  function KeysAmong(m: seq<Picture>): nat {
    if m == [] then 0 else (if m[0].key then 1 else 0) + KeysAmong(m[1..])
  }

  /** A stream's own numbers are its pictures and its key frames, counted in 64 bits. */
  lemma {:induction false} CountsArePictures(s: Stream, calls: seq<Call>)
    requires Consistent(s) && forall k :: 0 <= k < |calls| ==> Mp4Session.Bounded(calls[k])
    ensures Final(s, calls).frames == (s.frames + |Meaning(Abstract(s), calls)|) % TWO_64
    ensures Final(s, calls).keys == (s.keys + KeysAmong(Meaning(Abstract(s), calls))) % TWO_64
    decreases |calls|
  {
    hide After, Accepts, PictureOf, Advance, Consistent, Abstract, Mp4Session.Bounded, KeysAmong;
    NoKeys();
    if calls != [] {
      var next := After(s, calls[0]).0;
      var rest := calls[1..];
      CountsOne(s, calls[0]);
      match calls[0]
      case SetSize(w, h) => CountsArePictures(next, rest);
      case Unit(unit, key, pts) =>
        CountsArePictures(next, rest);
        if Accepts(Abstract(s), unit, key) {
          KeysOf(PictureOf(Abstract(s), unit, key, pts), Meaning(Advance(Abstract(s), unit, pts), rest));
        }
    }
  }

  lemma NoKeys()
    ensures KeysAmong([]) == 0
  {
  }

  lemma KeysOf(p: Picture, m: seq<Picture>)
    ensures KeysAmong([p] + m) == KeysAmong(m) + if p.key then 1 else 0
  {
    assert ([p] + m)[1..] == m;
  }

  /** One call: where it leads the reference and the counters. */
  lemma CountsOne(s: Stream, call: Call)
    requires Consistent(s) && Mp4Session.Bounded(call)
    ensures var r, next := Abstract(s), After(s, call).0;
            && Consistent(next)
            && (call.SetSize? ==>
                  && Abstract(next) == (if call.width > 0 && call.height > 0 then r.(width := call.width, height := call.height) else r)
                  && next.frames == s.frames && next.keys == s.keys)
            && (call.Unit? ==>
                  if Accepts(r, call.unit, call.key) then
                    && Abstract(next) == Advance(r, call.unit, call.pts)
                    && PictureOf(r, call.unit, call.key, call.pts).key == call.key
                    && next.frames == (s.frames + 1) % TWO_64
                    && next.keys == if call.key then (s.keys + 1) % TWO_64 else s.keys
                  else next == s)
  {
    hide Write, Accepts, Advance, Consistent, Play, InForce, AvcC, PictureNals, Sets, CarriesSets, Nals;
    match call
    case SetSize(w, h) => SizeKeepsDeclaration(s, w, h);
    case Unit(unit, key, pts) =>
      BoundedUnit(call);
      PlayUnit(s, unit, key, pts, []);
      CountsWritten(s, unit, key, pts);
  }

  lemma CountsWritten(s: Stream, unit: seq<byte>, key: bool, pts: uint64)
    ensures var w := Write(s, unit, key, pts);
            w.Written? ==> w.after.frames == (s.frames + 1) % TWO_64
                           && w.after.keys == if key then (s.keys + 1) % TWO_64 else s.keys
  {
    RedeclareKeepsTimeline(s, unit);
    hide Redeclare, Sample, PictureBytes;
  }

  /** Why a unit is refused: the first of these that holds, in this order. */
  lemma RefusedFor(s: Stream, unit: seq<byte>, key: bool, pts: uint64)
    ensures var w, carries := Write(s, unit, key, pts), CarriesSets(unit);
            if |unit| == 0 then w == Refused(NotAPicture)
            else if !s.started && !key then w == Refused(FirstFrameNotKey)
            else if !HasPicture(unit) then w == Refused(NoPicture)
            else if !s.started && !carries && s.params == [] then w == Refused(NoSets)
            else if carries && (!s.started || Sets(unit) != s.params) && AvcC(Sets(unit)).NoRecord? then
              w == Refused(if s.started then CodecChanged else Undeclarable(AvcC(Sets(unit)).error))
            else w.Refused? ==> AvcC(s.params).NoRecord?
  {
    PicturesAmong(Nals(unit));
    NoSampleNoPicture(PictureNals(Nals(unit)));
    BothSetsAreSets(unit);
    assert HasPicture(unit) <==> Sample(unit) != [];
    hide AvcC, Nals, PictureNals, Prefixed, Sets, CarriesSets, HasPicture, PictureBytes, Sample, Mp4Boxes.InitSegment;
  }
}
