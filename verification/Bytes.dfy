/** Byte strings and fixed-width big-endian integers. */
module Bytes {

  type Byte = b: int | 0 <= b < 256

  type Bytes = seq<Byte>

  function Power256(width: nat): (p: nat)
    ensures p > 0
  {
    if width == 0 then 1 else 256 * Power256(width - 1)
  }

  function BigEndian(n: nat, width: nat): (s: Bytes)
    ensures |s| == width
  {
    if width == 0 then [] else BigEndian(n / 256, width - 1) + [n % 256]
  }

  function FromBigEndian(s: Bytes): nat {
    if s == [] then 0 else 256 * FromBigEndian(s[..|s| - 1]) + s[|s| - 1]
  }

  lemma {:induction false} BigEndianRoundTrip(n: nat, width: nat)
    requires n < Power256(width)
    ensures FromBigEndian(BigEndian(n, width)) == n
  {
    if width > 0 {
      BigEndianRoundTrip(n / 256, width - 1);
      var s := BigEndian(n, width);
      assert s[..width - 1] == BigEndian(n / 256, width - 1);
    }
  }

  /** And every byte string is the fixed-width form of the number it stands for. */
  lemma {:induction false} FromBigEndianRoundTrip(s: Bytes)
    ensures BigEndian(FromBigEndian(s), |s|) == s
    decreases |s|
  {
    if s != [] {
      FromBigEndianRoundTrip(s[..|s| - 1]);
      assert s == s[..|s| - 1] + [s[|s| - 1]];
    }
  }

  // ---------------------------------------------------------------- length-prefixed parts

  /** Each part preceded by its length in eight bytes. */
  function Framed(parts: seq<Bytes>): Bytes {
    if parts == [] then [] else BigEndian(|parts[0]|, 8) + parts[0] + Framed(parts[1..])
  }

  ghost predicate Frameable(parts: seq<Bytes>) {
    forall i :: 0 <= i < |parts| ==> |parts[i]| < Power256(8)
  }

  lemma {:induction false} Regroup(a: Bytes, b: Bytes, c: Bytes)
    ensures a + b + c == a + (b + c)
  {}

  lemma {:induction false} CutBehind(a: Bytes, b: Bytes, k: nat)
    requires |a| <= k <= |a| + |b|
    ensures (a + b)[..k] == a + b[..k - |a|]
  {}

  lemma {:induction false} FramedHead(parts: seq<Bytes>)
    requires parts != [] && Frameable(parts)
    ensures |Framed(parts)| >= 8 + |parts[0]|
    ensures FromBigEndian(Framed(parts)[..8]) == |parts[0]|
    ensures Framed(parts)[8..8 + |parts[0]|] == parts[0]
    ensures Framed(parts)[8 + |parts[0]|..] == Framed(parts[1..])
  {
    BigEndianRoundTrip(|parts[0]|, 8);
    assert Framed(parts)[..8] == BigEndian(|parts[0]|, 8);
  }

  /** Different lists of parts are never framed alike, whatever their contents. */
  lemma {:induction false} FramedInjective(a: seq<Bytes>, b: seq<Bytes>)
    requires Frameable(a) && Frameable(b) && Framed(a) == Framed(b)
    ensures a == b
    decreases |a|
  {
    if a != [] && b != [] {
      FramedHead(a);
      FramedHead(b);
      FramedInjective(a[1..], b[1..]);
      assert a == [a[0]] + a[1..] && b == [b[0]] + b[1..];
    } else if a != [] {
      FramedHead(a);
    } else if b != [] {
      FramedHead(b);
    }
  }
}
