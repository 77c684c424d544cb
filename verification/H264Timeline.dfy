/** The timeline of a WebCodecs stream: packets numbered from one, stamped from zero, always later than the last. */
module H264Timeline {
  import opened Bytes
  import opened H264Wire
  import opened Wrappers

  datatype Picture = Picture(pts: uint64, key: bool, width: uint32, height: uint32, data: seq<byte>)

  /** How far one picture is after the last: the device's own delta, or one tick when the device's clock does not advance. */
  function Delta(last: uint64, pts: uint64): nat { if pts > last then pts - last else 1 }

  /** The timestamp of the k-th picture of a stream, from its device times, before any bound. */
  function Stamp(pts: seq<uint64>, k: nat): nat
    requires k < |pts|
  {
    if k == 0 then 0 else Stamp(pts, k - 1) + Delta(pts[k - 1], pts[k])
  }

  /** Timestamps strictly increase, whatever the device's clock does. */
  lemma {:induction false} StampsIncrease(pts: seq<uint64>, j: nat, k: nat)
    requires j < k < |pts|
    ensures Stamp(pts, j) < Stamp(pts, k)
  {
    if j < k - 1 {
      StampsIncrease(pts, j, k - 1);
    }
  }

  /** While the device's clock advances the timeline is the clock itself, from zero, and never meets its bound. */
  lemma {:induction false} AdvancingClock(pts: seq<uint64>, k: nat)
    requires k < |pts| && forall j :: 0 < j <= k ==> pts[j - 1] < pts[j]
    ensures Stamp(pts, k) == pts[k] as int - pts[0] as int < TWO_64
  {
    if k > 0 {
      AdvancingClock(pts, k - 1);
    }
  }

  /** Each picture is as far after the last as the device's clock says, or one tick when that clock stands still or goes back. */
  lemma StampsFollowTheClock(pts: seq<uint64>, k: nat)
    requires k < |pts|
    ensures k == 0 ==> Stamp(pts, k) == 0
    ensures k > 0 && pts[k - 1] < pts[k] ==> Stamp(pts, k) - Stamp(pts, k - 1) == pts[k] as int - pts[k - 1] as int
    ensures k > 0 && pts[k] <= pts[k - 1] ==> Stamp(pts, k) == Stamp(pts, k - 1) + 1
  {
  }

  lemma {:induction false} StampsOfPrefix(pts: seq<uint64>, next: uint64, k: nat)
    requires k < |pts|
    ensures Stamp(pts + [next], k) == Stamp(pts, k)
  {
    if k > 0 {
      StampsOfPrefix(pts, next, k - 1);
    }
  }

  lemma NextStamp(pts: seq<uint64>, next: uint64)
    ensures Stamp(pts + [next], |pts|) ==
            if pts == [] then 0 else Stamp(pts, |pts| - 1) + Delta(pts[|pts| - 1], next)
  {
    if pts != [] {
      StampsOfPrefix(pts, next, |pts| - 1);
    }
  }

  class Stream {
    var sequence: nat
    var lastSource: uint64
    var lastOutput: uint64
    var started: bool
    // The device times of the pictures carried.
    ghost var carried: seq<uint64>

    ghost predicate Valid()
      reads this
    {
      && started == (carried != [])
      && sequence == |carried|
      && (started ==> lastSource == carried[|carried| - 1] && lastOutput == Stamp(carried, |carried| - 1))
    }

    constructor ()
      ensures Valid() && carried == []
    {
      sequence, lastSource, lastOutput, started := 0, 0, 0, false;
      carried := [];
    }

    /**
     Carries one picture. It is refused, and the stream ends, when its timestamp would pass the bound, or the picture
     is no packet; otherwise what is written is the packet with the next number and the next timestamp.
     */
    method Carry(picture: Picture) returns (wire: array?<byte>)
      requires Valid() && sequence + 1 < TWO_64
      modifies this
      ensures var pts := old(carried) + [picture.pts];
              var packet := Packet(|pts|, 0, picture.key, picture.width, picture.height, picture.data);
              var stamp := Stamp(pts, |pts| - 1);
              && (wire != null <==> stamp < TWO_64 && H264Wire.Valid(packet))
              && (wire != null ==>
                    && Valid() && carried == pts
                    && Decoded(wire[..]) == Some(packet.(timestampUS := stamp)))
    {
      hide Wire, Decoded, HasStartCode, Stamp;
      NextStamp(carried, picture.pts);
      sequence := sequence + 1;
      var timestamp := 0;
      if started {
        if picture.pts > lastSource {
          var delta := picture.pts - lastSource;
          if TWO_64 - 1 - lastOutput as int < delta {
            return null;
          }
          timestamp := lastOutput + delta;
        } else {
          if lastOutput as int == TWO_64 - 1 {
            return null;
          }
          timestamp := lastOutput + 1;
        }
      }
      var packet := Packet(sequence, timestamp, picture.key, picture.width, picture.height, picture.data);
      wire := Encode(packet);
      if wire == null {
        return;
      }
      DecodeUndoesEncode(packet);
      lastSource, lastOutput, started := picture.pts, timestamp, true;
      carried := carried + [picture.pts];
    }
  }
}
