/** Fixed-width big-endian words inside a byte string, read and written. */
module Words {
  import opened Bytes

  lemma Widths()
    ensures Pow256(2) == 65536 && Pow256(4) == TWO_32 && Pow256(8) == TWO_64
  {
    assert Pow256(5) == 256 * Pow256(4) && Pow256(6) == 256 * Pow256(5) && Pow256(7) == 256 * Pow256(6);
  }

  lemma BEFits(s: seq<byte>)
    ensures |s| == 4 ==> BE(s) < TWO_32
    ensures |s| == 8 ==> BE(s) < TWO_64
  {
    Widths();
    hide Pow256;
  }

  function U64(d: seq<byte>, at: nat): uint64
    requires at + 8 <= |d|
  {
    BEFits(d[at..at + 8]);
    BE(d[at..at + 8])
  }

  function U32(d: seq<byte>, at: nat): uint32
    requires at + 4 <= |d|
  {
    BEFits(d[at..at + 4]);
    BE(d[at..at + 4])
  }

  lemma Read64(d: seq<byte>, at: nat, v: uint64)
    requires at + 8 <= |d| && d[at..at + 8] == PutBE(8, v)
    ensures U64(d, at) == v
  {
    Widths();
    hide Pow256;
    ReadBackBE(8, v);
  }

  lemma Read32(d: seq<byte>, at: nat, v: uint32)
    requires at + 4 <= |d| && d[at..at + 4] == PutBE(4, v)
    ensures U32(d, at) == v
  {
    Widths();
    hide Pow256;
    ReadBackBE(4, v);
  }

  function Three32(a: nat, b: nat, c: nat): seq<byte> { PutBE(4, a) + PutBE(4, b) + PutBE(4, c) }

  lemma SliceOfSlice(d: seq<byte>, from: nat, to: nat, i: nat, j: nat)
    requires from <= to <= |d| && i <= j <= to - from
    ensures d[from..to][i..j] == d[from + i..from + j]
  {
    forall k | 0 <= k < j - i ensures d[from..to][i..j][k] == d[from + i..from + j][k] {
      assert d[from..to][i + k] == d[from + i + k];
    }
  }

  lemma ThreeSlices(d: seq<byte>, at: nat, a: nat, b: nat, c: nat)
    requires at + 12 <= |d| && d[at..at + 12] == Three32(a, b, c)
    ensures d[at..at + 4] == PutBE(4, a) && d[at + 4..at + 8] == PutBE(4, b) && d[at + 8..at + 12] == PutBE(4, c)
  {
    hide PutBE;
    var q := d[at..at + 12];
    var x, y, z := PutBE(4, a), PutBE(4, b), PutBE(4, c);
    assert |x| == |y| == |z| == 4 && |x + y| == 8;
    assert q == x + y + z;
    assert q[..4] == x && q[4..8] == y && q[8..12] == z;
    SliceOfSlice(d, at, at + 12, 0, 4);
    SliceOfSlice(d, at, at + 12, 4, 8);
    SliceOfSlice(d, at, at + 12, 8, 12);
  }

  lemma ThreeJoined(d: seq<byte>, at: nat)
    requires at + 12 <= |d|
    ensures Three32(BE(d[at..at + 4]), BE(d[at + 4..at + 8]), BE(d[at + 8..at + 12])) == d[at..at + 12]
  {
    hide PutBE, BE;
    WriteBackBE(d[at..at + 4]);
    WriteBackBE(d[at + 4..at + 8]);
    WriteBackBE(d[at + 8..at + 12]);
    assert d[at..at + 12] == d[at..at + 4] + d[at + 4..at + 8] + d[at + 8..at + 12];
  }
}
