/**
 Bit strings, read as polynomials over GF(2) with the coefficient of the highest power first, their relation
 to natural numbers, and the bit stream of an octet string.
 */
module Bits {
  import opened Bytes

  type bits = seq<bool>

  function Zeros(n: nat): (z: bits)
    ensures |z| == n
    ensures forall i :: 0 <= i < n ==> !z[i]
  {
    seq(n, i => false)
  }

  function Xor(a: bits, b: bits): (c: bits)
    requires |a| == |b|
    ensures |c| == |a|
    ensures forall i :: 0 <= i < |a| ==> c[i] == (a[i] != b[i])
  {
    seq(|a|, i requires 0 <= i < |a| => a[i] != b[i])
  }

  lemma XorConcat(a: bits, b: bits, c: bits, d: bits)
    requires |a| == |c| && |b| == |d|
    ensures Xor(a + b, c + d) == Xor(a, c) + Xor(b, d)
  {
  }

  // ---------- parity ----------

  /** True iff an odd number of bits are set. */
  function Parity(a: bits): bool
  {
    if a == [] then false else a[0] != Parity(a[1..])
  }

  lemma {:induction false} ParityConcat(a: bits, b: bits)
    ensures Parity(a + b) == (Parity(a) != Parity(b))
  {
    if a == [] {
      assert a + b == b;
    } else {
      assert (a + b)[1..] == a[1..] + b;
      ParityConcat(a[1..], b);
    }
  }

  lemma {:induction false} ParityXor(a: bits, b: bits)
    requires |a| == |b|
    ensures Parity(Xor(a, b)) == (Parity(a) != Parity(b))
  {
    if a != [] {
      assert Xor(a, b)[1..] == Xor(a[1..], b[1..]);
      ParityXor(a[1..], b[1..]);
    }
  }

  lemma {:induction false} ParityZeros(n: nat)
    ensures !Parity(Zeros(n))
  {
    if n > 0 {
      assert Zeros(n)[1..] == Zeros(n - 1);
      ParityZeros(n - 1);
    }
  }

  // ---------- bits of a number ----------

  function Pow2(n: nat): nat
  {
    if n == 0 then 1 else 2 * Pow2(n - 1)
  }

  /** The `width` low-order bits of `n`, most significant first. */
  function ToBits(n: nat, width: nat): (r: bits)
    ensures |r| == width
  {
    if width == 0 then [] else ToBits(n / 2, width - 1) + [n % 2 == 1]
  }

  function Value(b: bits): nat
  {
    if b == [] then 0 else 2 * Value(b[..|b| - 1]) + if b[|b| - 1] then 1 else 0
  }

  lemma {:induction false} ValueOfBits(n: nat, width: nat)
    requires n < Pow2(width)
    ensures Value(ToBits(n, width)) == n
  {
    if width > 0 {
      assert ToBits(n, width)[..width - 1] == ToBits(n / 2, width - 1);
      ValueOfBits(n / 2, width - 1);
    }
  }

  lemma {:induction false} BitsOfValue(b: bits)
    ensures Value(b) < Pow2(|b|)
    ensures ToBits(Value(b), |b|) == b
  {
    if b != [] {
      BitsOfValue(b[..|b| - 1]);
      assert b == b[..|b| - 1] + [b[|b| - 1]];
    }
  }

  lemma {:induction false} ZeroBits(width: nat)
    ensures ToBits(0, width) == Zeros(width)
  {
    if width > 0 {
      ZeroBits(width - 1);
    }
  }

  lemma {:induction false} AddPower(n: nat, width: nat)
    ensures ToBits(n + Pow2(width), width) == ToBits(n, width)
  {
    if width > 0 {
      AddPower(n / 2, width - 1);
      assert (n + Pow2(width)) / 2 == n / 2 + Pow2(width - 1);
    }
  }

  /** `p` added `k` times. */
  function Times(k: nat, p: nat): nat
  {
    if k == 0 then 0 else Times(k - 1, p) + p
  }

  lemma {:induction false} TimesConstants(k: nat)
    ensures Times(k, 0x10) == 0x10 * k && Times(k, 0x100) == 0x100 * k && Times(k, 0x10000) == 0x10000 * k
  {
    if k > 0 {
      TimesConstants(k - 1);
    }
  }

  lemma {:induction false} AddMultiple(n: nat, k: nat, width: nat)
    ensures ToBits(n + Times(k, Pow2(width)), width) == ToBits(n, width)
  {
    if k > 0 {
      AddMultiple(n, k - 1, width);
      AddPower(n + Times(k - 1, Pow2(width)), width);
    }
  }

  lemma Powers()
    ensures Pow2(4) == 0x10 && Pow2(8) == 0x100 && Pow2(15) == 0x8000 && Pow2(16) == 0x10000
  {
    assert Pow2(4) == 16;
    assert Pow2(8) == 2 * 2 * 2 * 2 * Pow2(4);
    assert Pow2(12) == 2 * 2 * 2 * 2 * Pow2(8);
    assert Pow2(15) == 2 * 2 * 2 * Pow2(12);
  }

  lemma Reduced(n: nat, r: nat, k: nat, width: nat, p: nat)
    requires p == Pow2(width) && p in {0x10, 0x100, 0x10000} && n == p * k + r
    ensures ToBits(r, width) == ToBits(n, width)
  {
    TimesConstants(k);
    AddMultiple(r, k, width);
  }

  /** Reducing a number modulo 2^8 or 2^16 keeps its low-order bits. */
  lemma ModBits(n: nat)
    ensures ToBits(n % 0x100, 8) == ToBits(n, 8)
    ensures ToBits(n % 0x10000, 16) == ToBits(n, 16)
  {
    Powers();
    Reduced(n, n % 0x100, n / 0x100, 8, 0x100);
    Reduced(n, n % 0x10000, n / 0x10000, 16, 0x10000);
  }

  lemma {:induction false} DropTopBit(n: nat, width: nat)
    requires width > 0
    ensures ToBits(n, width)[1..] == ToBits(n, width - 1)
  {
    if width > 1 {
      DropTopBit(n / 2, width - 1);
    }
  }

  lemma {:induction false} TopBit(n: nat, width: nat)
    requires width > 0
    requires n < Pow2(width)
    ensures ToBits(n, width)[0] <==> n >= Pow2(width - 1)
  {
    if width > 1 {
      TopBit(n / 2, width - 1);
    }
  }

  /** Halving `k` times. */
  function Halve(n: nat, k: nat): nat
  {
    if k == 0 then n else Halve(n / 2, k - 1)
  }

  lemma {:induction false} SplitBits(n: nat, width: nat, k: nat)
    ensures ToBits(n, width + k) == ToBits(Halve(n, k), width) + ToBits(n, k)
  {
    if k > 0 {
      SplitBits(n / 2, width, k - 1);
    }
  }

  lemma HalveFour(n: nat, k: nat)
    ensures Halve(n, k + 4) == Halve(n / 16, k)
  {
    assert Halve(n, k + 4) == Halve(n / 2, k + 3) == Halve(n / 2 / 2, k + 2) == Halve(n / 2 / 2 / 2, k + 1);
    assert n / 2 / 2 / 2 / 2 == n / 16;
  }

  lemma HalveByte(n: nat)
    ensures Halve(n, 8) == n / 256
  {
    HalveFour(n, 4);
    HalveFour(n / 16, 0);
  }

  lemma Nibble(n: nat)
    ensures ToBits(n, 4) == [n / 8 % 2 == 1, n / 4 % 2 == 1, n / 2 % 2 == 1, n % 2 == 1]
  {
    assert ToBits(n, 4) == ToBits(n / 2 / 2, 2) + [n / 2 % 2 == 1] + [n % 2 == 1];
    assert ToBits(n / 4, 2) == [n / 4 / 2 % 2 == 1] + [n / 4 % 2 == 1];
    assert n / 2 / 2 == n / 4 && n / 4 / 2 == n / 8;
  }

  lemma TopNibble(n: nat, width: nat)
    ensures ToBits(n, width + 4) == ToBits(n / 16, width) + ToBits(n, 4)
  {
    SplitBits(n, width, 4);
    HalveFour(n, 0);
  }

  /** Bitwise exclusive or of two numbers of any size. */
  function BitXor(a: nat, b: nat): nat
  {
    if a == 0 && b == 0 then 0
    else 2 * BitXor(a / 2, b / 2) + if a % 2 != b % 2 then 1 else 0
  }

  lemma {:induction false} BitXorBits(a: nat, b: nat, width: nat)
    ensures ToBits(BitXor(a, b), width) == Xor(ToBits(a, width), ToBits(b, width))
  {
    if width > 0 {
      BitXorBits(a / 2, b / 2, width - 1);
      var x := BitXor(a, b);
      assert x / 2 == BitXor(a / 2, b / 2) && (x % 2 == 1) == ((a % 2 == 1) != (b % 2 == 1));
    }
  }

  // ---------- bits of octets ----------

  function BitsOf(data: bytes): (r: bits)
    ensures |r| == 8 * |data|
  {
    if data == [] then [] else ToBits(data[0], 8) + BitsOf(data[1..])
  }

  lemma {:induction false} BitsOfConcat(a: bytes, b: bytes)
    ensures BitsOf(a + b) == BitsOf(a) + BitsOf(b)
  {
    if a == [] {
      assert a + b == b;
    } else {
      assert (a + b)[1..] == a[1..] + b;
      BitsOfConcat(a[1..], b);
    }
  }

  function XorByte(a: byte, b: byte): (c: byte)
  {
    var v := Value(Xor(ToBits(a, 8), ToBits(b, 8)));
    BitsOfValue(Xor(ToBits(a, 8), ToBits(b, 8)));
    Powers();
    v
  }

  /** Bitwise difference of two octet strings of one length. */
  function XorBytes(a: bytes, b: bytes): (c: bytes)
    requires |a| == |b|
  {
    seq(|a|, i requires 0 <= i < |a| => XorByte(a[i], b[i]))
  }

  lemma {:induction false} BitsOfXor(a: bytes, b: bytes)
    requires |a| == |b|
    ensures BitsOf(XorBytes(a, b)) == Xor(BitsOf(a), BitsOf(b))
  {
    if a != [] {
      assert XorBytes(a, b)[1..] == XorBytes(a[1..], b[1..]);
      BitsOfXor(a[1..], b[1..]);
      BitsOfValue(Xor(ToBits(a[0], 8), ToBits(b[0], 8)));
      XorConcat(ToBits(a[0], 8), BitsOf(a[1..]), ToBits(b[0], 8), BitsOf(b[1..]));
    }
  }

  lemma BitsOfOctet(b: byte)
    ensures BitsOf([b]) == ToBits(b, 8)
  {
    assert BitsOf([b]) == ToBits(b, 8) + BitsOf([]);
  }

  lemma BitsOfWord(n: nat)
    requires n < 0x10000
    ensures BitsOf(BigEndian(n, 2)) == ToBits(n, 16)
  {
    var hi := n / 256;
    assert BigEndian(n, 2) == BigEndian(hi, 1) + [n % 256];
    assert BigEndian(hi, 1) == [hi];
    BitsOfConcat([hi], [n % 256]);
    BitsOfOctet(hi);
    BitsOfOctet(n % 256);
    SplitBits(n, 8, 8);
    HalveByte(n);
    ModBits(n);
  }
}
