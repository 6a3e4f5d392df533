/** Octets and big-endian integers. */
module Bytes {

  type byte = n: nat | n < 256

  type bytes = seq<byte>

  function Pow256(width: nat): nat
  {
    if width == 0 then 1 else 256 * Pow256(width - 1)
  }

  /** The `width` low-order octets of `n`, most significant first. */
  function BigEndian(n: nat, width: nat): (b: bytes)
    ensures |b| == width
  {
    if width == 0 then [] else BigEndian(n / 256, width - 1) + [n % 256]
  }

  function FromBigEndian(b: bytes): nat
  {
    if b == [] then 0 else FromBigEndian(b[..|b| - 1]) * 256 + b[|b| - 1]
  }

  lemma {:induction false} FromBigEndianInverse(n: nat, width: nat)
    requires n < Pow256(width)
    ensures FromBigEndian(BigEndian(n, width)) == n
  {
    if width > 0 {
      assert BigEndian(n, width)[..width - 1] == BigEndian(n / 256, width - 1);
      FromBigEndianInverse(n / 256, width - 1);
    }
  }

  lemma {:induction false} BigEndianInverse(b: bytes)
    ensures FromBigEndian(b) < Pow256(|b|)
    ensures BigEndian(FromBigEndian(b), |b|) == b
  {
    if b != [] {
      BigEndianInverse(b[..|b| - 1]);
      assert b == b[..|b| - 1] + [b[|b| - 1]];
    }
  }

  lemma OnePlaceUp(first: nat, power: nat, rest: nat)
    ensures (first * power + rest) * 256 == first * (256 * power) + rest * 256
  {
  }

  /** The first octet is the most significant one. */
  lemma {:induction false} FirstOctetLeads(first: byte, rest: bytes)
    ensures FromBigEndian([first] + rest) == first * Pow256(|rest|) + FromBigEndian(rest)
  {
    var b, n := [first] + rest, |rest|;
    if n == 0 {
      assert b[..0] == [] && FromBigEndian(b) == FromBigEndian(b[..0]) * 256 + first;
    } else {
      assert b[..n] == [first] + rest[..n - 1] && b[n] == rest[n - 1];
      FirstOctetLeads(first, rest[..n - 1]);
      OnePlaceUp(first, Pow256(n - 1), FromBigEndian(rest[..n - 1]));
    }
  }
}
