/** Bytes, fixed-width unsigned integers, and big-endian numbers. */
module Bytes {
  type byte = b: int | 0 <= b < 256

  const TWO_16 := 0x1_0000
  const TWO_32 := 0x1_0000_0000
  const TWO_63 := 0x8000_0000_0000_0000
  const TWO_64 := 0x1_0000_0000_0000_0000

  type uint32 = x: int | 0 <= x < TWO_32
  type uint64 = x: int | 0 <= x < TWO_64

  /** 256 to the power n: how many numbers n bytes can hold. */
  function Pow256(n: nat): (p: nat)
    ensures p > 0
  {
    if n == 0 then 1 else 256 * Pow256(n - 1)
  }

  /** The number a byte string spells, most significant byte first. */
  function BE(s: seq<byte>): (v: nat)
    ensures v < Pow256(|s|)
  {
    if s == [] then 0 else BE(s[..|s| - 1]) * 256 + s[|s| - 1]
  }

  /** The low n bytes of a number, most significant first; higher bytes are cut off, as a conversion to a narrower word cuts them. */
  function PutBE(n: nat, v: nat): (s: seq<byte>)
    ensures |s| == n
  {
    if n == 0 then [] else PutBE(n - 1, v / 256) + [v % 256]
  }

  /** A number that fits n bytes is read back from the n bytes written for it. */
  lemma {:induction false} ReadBackBE(n: nat, v: nat)
    requires v < Pow256(n)
    ensures BE(PutBE(n, v)) == v
  {
    if n > 0 {
      ReadBackBE(n - 1, v / 256);
      var s := PutBE(n, v);
      assert s[..n - 1] == PutBE(n - 1, v / 256);
    }
  }

  /** Reading bytes and writing the number back gives the same bytes. */
  lemma {:induction false} WriteBackBE(s: seq<byte>)
    ensures PutBE(|s|, BE(s)) == s
  {
    if s != [] {
      var front := s[..|s| - 1];
      WriteBackBE(front);
      var v := BE(s);
      assert v / 256 == BE(front) && v % 256 == s[|s| - 1];
      assert s == front + [s[|s| - 1]];
    }
  }
}
