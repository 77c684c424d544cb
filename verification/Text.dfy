/** Text as the programs read it: Unicode white space, and characters as the bytes UTF-8 spells them in. */
module Text {
  import opened Bytes
  import opened Wrappers

  /** The code points with the White_Space property. */
  predicate IsSpace(n: nat) {
    || 0x9 <= n <= 0xd || n == 0x20 || n == 0x85 || n == 0xa0 || n == 0x1680 || 0x2000 <= n <= 0x200a
    || n == 0x2028 || n == 0x2029 || n == 0x202f || n == 0x205f || n == 0x3000
  }

  lemma SpacesAre(n: nat)
    ensures IsSpace(n) <==>
            || n in [9, 10, 11, 12, 13, 32, 133, 160, 5760, 8232, 8233, 8239, 8287, 12288]
            || n in [8192, 8193, 8194, 8195, 8196, 8197, 8198, 8199, 8200, 8201, 8202]
  {
  }

  function Trim(s: string): string {
    if s != "" && IsSpace(s[0] as int) then Trim(s[1..])
    else if s != "" && IsSpace(s[|s| - 1] as int) then Trim(s[..|s| - 1])
    else s
  }

  /** Trimming takes white space off both ends, all there is of it and nothing else. */
  lemma {:induction false} TrimIsExact(s: string) returns (i: nat, j: nat)
    ensures i <= j <= |s| && Trim(s) == s[i..j]
    ensures forall k :: 0 <= k < i || j <= k < |s| ==> IsSpace(s[k] as int)
    ensures i < j ==> !IsSpace(s[i] as int) && !IsSpace(s[j - 1] as int)
    decreases |s|
  {
    hide IsSpace;
    i, j := 0, |s|;
    if s != "" && IsSpace(s[0] as int) {
      var rest := s[1..];
      i, j := TrimIsExact(rest);
      assert forall k :: 0 < k < |s| ==> s[k] == rest[k - 1];
      assert s[i + 1..j + 1] == rest[i..j];
      i, j := i + 1, j + 1;
    } else if s != "" && IsSpace(s[|s| - 1] as int) {
      var front := s[..|s| - 1];
      i, j := TrimIsExact(front);
      assert s[i..j] == front[i..j];
    }
  }

  // ----- UTF-8

  /** A code point that is a character: every one but the surrogates. */
  predicate IsScalar(n: nat) { n < 0xd800 || 0xe000 <= n < 0x11_0000 }

  /** The one spelling of a character, as section 3 of RFC 3629 gives it. */
  function PutRune(n: nat): (s: seq<byte>)
    requires IsScalar(n)
  {
    if n < 0x80 then [n]
    else if n < 0x800 then [0xc0 + n / 64, 0x80 + n % 64]
    else if n < 0x1_0000 then [0xe0 + n / 4096, 0x80 + n / 64 % 64, 0x80 + n % 64]
    else [0xf0 + n / 0x4_0000, 0x80 + n / 4096 % 64, 0x80 + n / 64 % 64, 0x80 + n % 64]
  }

  predicate AllScalar(runes: seq<nat>) { forall k :: 0 <= k < |runes| ==> IsScalar(runes[k]) }

  function Spelled(runes: seq<nat>): seq<byte>
    requires AllScalar(runes)
  {
    if runes == [] then [] else PutRune(runes[0]) + Spelled(runes[1..])
  }

  /** How many bytes a first byte announces; none for a byte that starts no character. */
  function Announced(first: byte): nat {
    if first < 0x80 then 1 else if first < 0xc0 then 0 else if first < 0xe0 then 2
    else if first < 0xf0 then 3 else if first < 0xf8 then 4 else 0
  }

  predicate IsMore(b: byte) { 0x80 <= b < 0xc0 }

  function Low(b: byte): int { b - 0x80 }

  function Checked(n: nat, least: nat): Option<nat> { if IsScalar(n) && n >= least then Some(n) else None }

  /** The number the announced bytes hold; spelled too long, a surrogate or beyond the last character it is none. */
  function RuneAt(d: seq<byte>): (r: Option<nat>)
    requires d != []
    ensures r.Some? ==> IsScalar(r.value) && 0 < Announced(d[0]) <= |d|
  {
    var n, first: int := Announced(d[0]), d[0];
    if n == 0 || |d| < n then None
    else if n == 1 then Some(first)
    else if !IsMore(d[1]) then None
    else if n == 2 then Checked((first - 0xc0) * 64 + Low(d[1]), 0x80)
    else if !IsMore(d[2]) then None
    else if n == 3 then Checked((first - 0xe0) * 4096 + Low(d[1]) * 64 + Low(d[2]), 0x800)
    else if !IsMore(d[3]) then None
    else Checked((first - 0xf0) * 0x4_0000 + Low(d[1]) * 4096 + Low(d[2]) * 64 + Low(d[3]), 0x1_0000)
  }

  /** The characters of a byte string, if it is one of characters. */
  function Runes(d: seq<byte>): Option<seq<nat>> {
    if d == [] then Some([])
    else
      var first := RuneAt(d);
      if first.None? then None
      else
        var rest := Runes(d[Announced(d[0])..]);
        if rest.None? then None else Some([first.value] + rest.value)
  }

  predicate Begins(d: seq<byte>, p: seq<byte>) { |p| <= |d| && d[..|p|] == p }

  lemma ShortRune(d: seq<byte>, n: nat)
    requires d != [] && Announced(d[0]) <= 2 && IsScalar(n)
    ensures RuneAt(d) == Some(n) <==> Begins(d, PutRune(n))
  {
  }

  /** A number has one spelling in four digits of base 64. */
  lemma FourDigits(n: nat, a: nat, b: nat, c: nat, e: nat)
    requires b < 64 && c < 64 && e < 64
    ensures n == a * 0x4_0000 + b * 4096 + c * 64 + e <==>
            a == n / 0x4_0000 && b == n / 4096 % 64 && c == n / 64 % 64 && e == n % 64
  {
    var q := n / 64;
    assert n / 4096 == q / 64 && n / 0x4_0000 == q / 64 / 64;
  }

  lemma ThreeByteRune(d: seq<byte>, n: nat)
    requires d != [] && Announced(d[0]) == 3 && IsScalar(n)
    ensures RuneAt(d) == Some(n) <==> Begins(d, PutRune(n))
  {
    if |d| >= 3 && IsMore(d[1]) && IsMore(d[2]) {
      var first: int := d[0];
      var a, b, c := first - 0xe0, Low(d[1]), Low(d[2]);
      FourDigits(n, 0, a, b, c);
      assert RuneAt(d) == Checked(a * 4096 + b * 64 + c, 0x800);
      var p := PutRune(n);
      assert Begins(d, p) <==> |p| == 3 && p[0] == d[0] && p[1] == d[1] && p[2] == d[2];
    }
  }

  lemma FourByteRune(d: seq<byte>, n: nat)
    requires d != [] && Announced(d[0]) == 4 && IsScalar(n)
    ensures RuneAt(d) == Some(n) <==> Begins(d, PutRune(n))
  {
    if |d| >= 4 && IsMore(d[1]) && IsMore(d[2]) && IsMore(d[3]) {
      var first: int := d[0];
      var a, b, c, e := first - 0xf0, Low(d[1]), Low(d[2]), Low(d[3]);
      FourDigits(n, a, b, c, e);
      assert RuneAt(d) == Checked(a * 0x4_0000 + b * 4096 + c * 64 + e, 0x1_0000);
      var p := PutRune(n);
      assert Begins(d, p) <==> |p| == 4 && p[0] == d[0] && p[1] == d[1] && p[2] == d[2] && p[3] == d[3];
    }
  }

  /** A character is read exactly where its one spelling stands. */
  lemma RuneIsSpelled(d: seq<byte>, n: nat)
    requires d != [] && IsScalar(n)
    ensures RuneAt(d) == Some(n) <==> Begins(d, PutRune(n))
    ensures Begins(d, PutRune(n)) ==> Announced(d[0]) == |PutRune(n)|
  {
    assert Begins(d, PutRune(n)) ==> d[0] == PutRune(n)[0];
    if Announced(d[0]) <= 2 {
      ShortRune(d, n);
    } else if Announced(d[0]) == 3 {
      ThreeByteRune(d, n);
    } else {
      FourByteRune(d, n);
    }
    hide RuneAt;
  }

  /** Bytes are text exactly when they are the spelling of characters, and then of those they read as. */
  lemma {:induction false} RunesAreSpelled(d: seq<byte>, runes: seq<nat>)
    ensures Runes(d) == Some(runes) <==> AllScalar(runes) && d == Spelled(runes)
    decreases |d|
  {
    hide RuneAt, PutRune, IsScalar;
    if runes == [] {
    } else if d == [] {
      assert IsScalar(runes[0]) ==> |PutRune(runes[0])| > 0 by {
        PutRuneIsSome(runes[0]);
      }
    } else {
      assert runes == [runes[0]] + runes[1..];
      assert AllScalar(runes) <==> IsScalar(runes[0]) && AllScalar(runes[1..]) by {
        assert forall k :: 0 < k < |runes| ==> runes[k] == runes[1..][k - 1];
      }
      if IsScalar(runes[0]) {
        RuneIsSpelled(d, runes[0]);
        PutRuneIsSome(runes[0]);
        var p := PutRune(runes[0]);
        if Begins(d, p) {
          RunesAreSpelled(d[|p|..], runes[1..]);
          assert d == p + d[|p|..];
        }
      }
    }
  }

  lemma PutRuneIsSome(n: nat)
    ensures IsScalar(n) ==> |PutRune(n)| > 0
  {
  }

  /** Text with no white space around it and no control character of ASCII in it. */
  predicate IsPlain(d: seq<byte>) {
    var runes := Runes(d);
    && runes.Some?
    && (runes.value != [] ==> !IsSpace(runes.value[0]) && !IsSpace(runes.value[|runes.value| - 1]))
    && forall k :: 0 <= k < |runes.value| ==> runes.value[k] >= 0x20 && runes.value[k] != 0x7f
  }

  /** Which bytes are plain: the spelling of characters that neither begins nor ends with white space nor has a control. */
  lemma PlainExactly(d: seq<byte>)
    ensures IsPlain(d) <==>
            exists runes: seq<nat> ::
              && AllScalar(runes) && d == Spelled(runes)
              && (forall k :: 0 <= k < |runes| ==> 32 <= runes[k] != 127)
              && (|runes| > 0 ==> !IsSpace(runes[0]) && !IsSpace(runes[|runes| - 1]))
  {
    hide Runes, Spelled, IsSpace;
    if Runes(d).Some? {
      RunesAreSpelled(d, Runes(d).value);
    }
    forall runes: seq<nat> | AllScalar(runes) && d == Spelled(runes) ensures Runes(d) == Some(runes) {
      RunesAreSpelled(d, runes);
    }
  }
}
