/**
 CRC-16/XMODEM.  The register is specified as a polynomial over GF(2) of degree below 16, fed one message
 bit at a time; `Crc16Xmodem` is the byte-wise loop over a machine word.  `CrcIsRemainder` ties both to
 polynomial division by the generator x^16 + x^12 + x^5 + 1 of section 2 of ITU-T V.41.
 */
module Crc {
  import opened Bytes
  import opened Bits

  const POLY: nat := 0x1021

  /** The generator without its leading term: x^12 + x^5 + 1. */
  const GENERATOR_TAIL: bits := (Zeros(3) + [true]) + ((Zeros(6) + [true]) + (Zeros(4) + [true]))

  /** The generator, highest power first. */
  const GENERATOR: bits := [true] + GENERATOR_TAIL

  /** The generator is x^16 + x^12 + x^5 + 1. */
  lemma GeneratorTerms(i: nat)
    requires i <= 16
    ensures |GENERATOR| == 17 && (GENERATOR[16 - i] <==> i == 16 || i == 12 || i == 5 || i == 0)
  {
  }

  /** The multiple of the generator tail by one coefficient. */
  function Tail(t: bool): (r: bits)
    ensures |r| == 16
  {
    if t then GENERATOR_TAIL else Zeros(16)
  }

  /** Multiply the register by x and reduce. */
  function Shift(c: bits): (r: bits)
    requires |c| == 16
    ensures |r| == 16
  {
    Xor(c[1..] + [false], Tail(c[0]))
  }

  /** Feed one message bit into the register. */
  function Feed(c: bits, b: bool): (r: bits)
    requires |c| == 16
    ensures |r| == 16
  {
    Xor(c[1..] + [false], Tail(c[0] != b))
  }

  /** Feed a message into the register. */
  function BitCrc(c: bits, m: bits): (r: bits)
    requires |c| == 16
    ensures |r| == 16
    decreases m
  {
    if m == [] then c else BitCrc(Feed(c, m[0]), m[1..])
  }

  function Crc16(data: bytes): nat
  {
    Value(BitCrc(Zeros(16), BitsOf(data)))
  }

  lemma Crc16Bits(data: bytes)
    ensures Crc16(data) < 0x10000
    ensures ToBits(Crc16(data), 16) == BitCrc(Zeros(16), BitsOf(data))
  {
    BitsOfValue(BitCrc(Zeros(16), BitsOf(data)));
    Powers();
  }

  // ---------- chaining, linearity, parity ----------

  /** A message may be fed in two parts. */
  lemma {:induction false} Chain(c: bits, a: bits, b: bits)
    requires |c| == 16
    ensures BitCrc(c, a + b) == BitCrc(BitCrc(c, a), b)
    decreases a
  {
    if a == [] {
      assert a + b == b;
    } else {
      assert (a + b)[1..] == a[1..] + b;
      Chain(Feed(c, a[0]), a[1..], b);
    }
  }

  lemma FeedXor(c: bits, d: bits, a: bool, b: bool)
    requires |c| == |d| == 16
    ensures Feed(Xor(c, d), a != b) == Xor(Feed(c, a), Feed(d, b))
  {
  }

  /** The CRC of a difference is the difference of the CRCs. */
  lemma {:induction false} Linear(c: bits, d: bits, a: bits, b: bits)
    requires |c| == |d| == 16 && |a| == |b|
    ensures BitCrc(Xor(c, d), Xor(a, b)) == Xor(BitCrc(c, a), BitCrc(d, b))
    decreases a
  {
    if a != [] {
      assert Xor(a, b)[1..] == Xor(a[1..], b[1..]);
      FeedXor(c, d, a[0], b[0]);
      Linear(Feed(c, a[0]), Feed(d, b[0]), a[1..], b[1..]);
    }
  }

  lemma TermParity(n: nat)
    ensures Parity(Zeros(n) + [true])
  {
    ParityZeros(n);
    ParityConcat(Zeros(n), [true]);
    assert Parity([true]);
  }

  lemma GeneratorTailParity()
    ensures Parity(GENERATOR_TAIL)
  {
    TermParity(3);
    TermParity(6);
    TermParity(4);
    ParityConcat(Zeros(6) + [true], Zeros(4) + [true]);
    ParityConcat(Zeros(3) + [true], (Zeros(6) + [true]) + (Zeros(4) + [true]));
  }

  lemma FeedParity(c: bits, b: bool)
    requires |c| == 16
    ensures Parity(Feed(c, b)) == (Parity(c) != b)
  {
    var t := c[0] != b;
    ParityXor(c[1..] + [false], Tail(t));
    ParityConcat(c[1..], [false]);
    assert !Parity([false]);
    GeneratorTailParity();
    ParityZeros(16);
  }

  /** The parity of the register is the parity of every bit consumed. */
  lemma {:induction false} ParityKept(c: bits, m: bits)
    requires |c| == 16
    ensures Parity(BitCrc(c, m)) == (Parity(c) != Parity(m))
    decreases m
  {
    if m != [] {
      FeedParity(c, m[0]);
      ParityKept(Feed(c, m[0]), m[1..]);
    }
  }

  // ---------- draining the register ----------

  /** `n` shifts with no further input. */
  function Drain(c: bits, n: nat): (r: bits)
    requires |c| == 16
    ensures |r| == 16
  {
    if n == 0 then c else Shift(Drain(c, n - 1))
  }

  lemma {:induction false} DrainFront(c: bits, n: nat)
    requires |c| == 16 && n > 0
    ensures Drain(c, n) == Drain(Shift(c), n - 1)
  {
    if n > 1 {
      DrainFront(c, n - 1);
    }
  }

  lemma ShiftIsZero(c: bits)
    requires |c| == 16
    ensures Shift(c) == Zeros(16) <==> c == Zeros(16)
  {
    var s := Shift(c);
    assert s[15] == c[0];
    if s == Zeros(16) {
      assert !c[0];
      assert forall k :: 0 <= k < 15 ==> s[k] == c[k + 1];
      assert forall k :: 1 <= k < 16 ==> c[k] == s[k - 1];
    }
  }

  /** Shifting loses nothing: only the zero register drains to zero. */
  lemma {:induction false} DrainIsZero(c: bits, n: nat)
    requires |c| == 16
    ensures Drain(c, n) == Zeros(16) <==> c == Zeros(16)
  {
    if n > 0 {
      ShiftIsZero(Drain(c, n - 1));
      DrainIsZero(c, n - 1);
    }
  }

  lemma {:induction false} FeedZeros(c: bits, n: nat)
    requires |c| == 16
    ensures BitCrc(c, Zeros(n)) == Drain(c, n)
    decreases n
  {
    if n > 0 {
      assert Zeros(n)[1..] == Zeros(n - 1);
      assert Feed(c, false) == Shift(c);
      FeedZeros(Shift(c), n - 1);
      DrainFront(c, n);
    }
  }

  lemma FeedIsShift(c: bits, w: bits)
    requires |c| == |w| == 16
    ensures Xor(Feed(c, w[0]), w[1..] + [false]) == Shift(Xor(c, w))
  {
    var t := Tail(c[0] != w[0]);
    assert Xor(c, w)[0] == (c[0] != w[0]);
    assert Xor(c, w)[1..] + [false] == Xor(c[1..] + [false], w[1..] + [false]);
  }

  /** Feeding `n` bits of `w` differs from draining `c` xor `w` by the bits of `w` still to come. */
  lemma {:induction false} FeedWord(c: bits, w: bits, n: nat)
    requires |c| == |w| == 16 && n <= 16
    ensures Xor(BitCrc(c, w[..n]), w[n..] + Zeros(n)) == Drain(Xor(c, w), n)
    decreases n
  {
    if n == 0 {
      assert w[n..] + Zeros(n) == w;
    } else {
      var c', w' := Feed(c, w[0]), w[1..] + [false];
      assert w[..n][1..] == w'[..n - 1];
      assert w'[n - 1..] + Zeros(n - 1) == w[n..] + Zeros(n);
      FeedIsShift(c, w);
      FeedWord(c', w', n - 1);
      DrainFront(Xor(c, w), n);
    }
  }

  lemma FeedWhole(c: bits, w: bits)
    requires |c| == |w| == 16
    ensures BitCrc(c, w) == Drain(Xor(c, w), 16)
  {
    FeedWord(c, w, 16);
    assert w[..16] == w;
    var r := BitCrc(c, w);
    assert Xor(r, w[16..] + Zeros(16)) == r;
  }

  /** Sixteen more bits bring the register to zero exactly when they repeat it. */
  lemma Residue(c: bits, w: bits)
    requires |c| == |w| == 16
    ensures BitCrc(c, w) == Zeros(16) <==> w == c
  {
    FeedWhole(c, w);
    DrainIsZero(Xor(c, w), 16);
    if Xor(c, w) == Zeros(16) {
      assert forall k :: 0 <= k < 16 ==> c[k] == w[k];
    }
  }

  // ---------- error detection ----------

  /** A non-zero error whose set bits all lie in the 16 positions from `p` on. */
  predicate BurstAt(e: bits, p: nat)
  {
    && p + 16 <= |e|
    && (exists i :: 0 <= i < |e| && e[i])
    && (forall i :: 0 <= i < |e| && e[i] ==> p <= i < p + 16)
  }

  lemma BurstDetected(e: bits, p: nat)
    requires BurstAt(e, p)
    ensures BitCrc(Zeros(16), e) != Zeros(16)
  {
    var w := e[p..p + 16];
    var r := |e| - p - 16;
    assert e == Zeros(p) + (w + Zeros(r));
    Chain(Zeros(16), Zeros(p), w + Zeros(r));
    FeedZeros(Zeros(16), p);
    DrainIsZero(Zeros(16), p);
    Chain(Zeros(16), w, Zeros(r));
    FeedWhole(Zeros(16), w);
    assert Xor(Zeros(16), w) == w;
    FeedZeros(Drain(w, 16), r);
    DrainIsZero(Drain(w, 16), r);
    DrainIsZero(w, 16);
    var i :| 0 <= i < |e| && e[i];
    assert w[i - p];
  }

  lemma OddDetected(e: bits)
    requires Parity(e)
    ensures BitCrc(Zeros(16), e) != Zeros(16)
  {
    ParityKept(Zeros(16), e);
    ParityZeros(16);
  }

  // ---------- polynomial division ----------

  /** The product of a polynomial and the generator, with |q| + 16 coefficients. */
  function TimesGenerator(q: bits): (r: bits)
    ensures |r| == |q| + 16
  {
    if q == [] then Zeros(16)
    else Xor(Leading(q[0], |q|), [false] + TimesGenerator(q[1..]))
  }

  /** The generator times one coefficient, aligned with a message of `n` bits. */
  function Leading(t: bool, n: nat): (r: bits)
    requires n > 0
    ensures |r| == n + 16
  {
    if t then GENERATOR + Zeros(n - 1) else Zeros(n + 16)
  }

  /** The quotient digits the register produces while it consumes `m`. */
  function Quotient(c: bits, m: bits): (q: bits)
    requires |c| == 16
    ensures |q| == |m|
    decreases m
  {
    if m == [] then [] else [c[0] != m[0]] + Quotient(Feed(c, m[0]), m[1..])
  }

  lemma DivisionStep(c: bits, b: bool, n: nat, i: nat)
    requires |c| == 16 && 0 < n && 0 < i < n + 16
    ensures (c + Zeros(n))[i] == (Leading(c[0] != b, n)[i] != (Feed(c, b) + Zeros(n - 1))[i - 1])
  {
    if i <= 16 {
      assert Leading(c[0] != b, n)[i] == Tail(c[0] != b)[i - 1];
    }
  }

  /** Both sides of the division identity: message and register above, multiple and remainder below. */
  function Above(c: bits, m: bits): (r: bits)
    requires |c| == 16
    ensures |r| == |m| + 16
  {
    Xor(c + Zeros(|m|), m + Zeros(16))
  }

  function Below(c: bits, m: bits): (r: bits)
    requires |c| == 16
    ensures |r| == |m| + 16
  {
    Xor(TimesGenerator(Quotient(c, m)), Zeros(|m|) + BitCrc(c, m))
  }

  lemma AboveTail(c: bits, m: bits, i: nat)
    requires |c| == 16 && m != [] && 0 < i < |m| + 16
    ensures Above(c, m)[i] == (Leading(c[0] != m[0], |m|)[i] != Above(Feed(c, m[0]), m[1..])[i - 1])
  {
    DivisionStep(c, m[0], |m|, i);
    assert (m + Zeros(16))[i] == (m[1..] + Zeros(16))[i - 1];
  }

  lemma BelowTail(c: bits, m: bits, i: nat)
    requires |c| == 16 && m != [] && 0 < i < |m| + 16
    ensures Below(c, m)[i] == (Leading(c[0] != m[0], |m|)[i] != Below(Feed(c, m[0]), m[1..])[i - 1])
  {
    var c', m' := Feed(c, m[0]), m[1..];
    var q := Quotient(c, m);
    assert q[0] == (c[0] != m[0]) && q[1..] == Quotient(c', m');
    assert TimesGenerator(q)[i] == (Leading(q[0], |q|)[i] != TimesGenerator(q[1..])[i - 1]);
    assert (Zeros(|m|) + BitCrc(c, m))[i] == (Zeros(|m'|) + BitCrc(c', m'))[i - 1];
  }

  lemma DivisionHead(c: bits, m: bits)
    requires |c| == 16 && m != []
    ensures Above(c, m)[0] == Below(c, m)[0]
  {
    assert Quotient(c, m)[0] == (c[0] != m[0]);
  }

  lemma {:induction false} Division(c: bits, m: bits)
    requires |c| == 16
    ensures Above(c, m) == Below(c, m)
    decreases m
  {
    if m == [] {
      assert c + Zeros(0) == c && Zeros(0) + BitCrc(c, m) == c;
      assert m + Zeros(16) == Zeros(16);
    } else {
      Division(Feed(c, m[0]), m[1..]);
      DivisionHead(c, m);
      forall i | 0 < i < |m| + 16
        ensures Above(c, m)[i] == Below(c, m)[i]
      {
        AboveTail(c, m, i);
        BelowTail(c, m, i);
      }
    }
  }

  /** A polynomial written as quotient times generator plus a remainder of degree below 16. */
  function Recompose(q: bits, r: bits): (m: bits)
    requires |r| == 16
    ensures |m| == |q| + 16
  {
    Xor(TimesGenerator(q), Zeros(|q|) + r)
  }

  lemma TakeLead(lead: bits, rest: bits, tail: bits, k: nat)
    requires |lead| == |rest| + 1 == |tail| + 1 && k < |rest|
    ensures Xor(rest, tail)[k] == (Xor(Xor(lead, [false] + rest), [false] + tail)[k + 1] != lead[k + 1])
  {
  }

  lemma RecomposeFront(q: bits, r: bits)
    requires |r| == 16 && q != []
    ensures Recompose(q, r)[0] == q[0]
    ensures forall k :: 0 <= k < |q| + 15 ==>
      Recompose(q[1..], r)[k] == (Recompose(q, r)[k + 1] != Leading(q[0], |q|)[k + 1])
  {
    var lead, rest, tail := Leading(q[0], |q|), TimesGenerator(q[1..]), Zeros(|q| - 1) + r;
    assert Zeros(|q|) + r == [false] + tail;
    assert Recompose(q, r) == Xor(Xor(lead, [false] + rest), [false] + tail);
    forall k | 0 <= k < |q| + 15
      ensures Recompose(q[1..], r)[k] == (Recompose(q, r)[k + 1] != lead[k + 1])
    {
      TakeLead(lead, rest, tail, k);
    }
  }

  lemma {:induction false} DivisionUnique(q: bits, r: bits, q': bits, r': bits)
    requires |q| == |q'| && |r| == |r'| == 16
    requires Recompose(q, r) == Recompose(q', r')
    ensures q == q' && r == r'
  {
    if q == [] {
      assert Recompose(q, r) == r && Recompose(q', r') == r';
    } else {
      RecomposeFront(q, r);
      RecomposeFront(q', r');
      assert Recompose(q[1..], r) == Recompose(q'[1..], r');
      DivisionUnique(q[1..], r, q'[1..], r');
      assert q == [q[0]] + q[1..] && q' == [q'[0]] + q'[1..];
    }
  }

  /**
   The CRC of a message m is the remainder of m * x^16 on division by the generator: it completes some
   multiple of the generator to m * x^16, and no other polynomial of degree below 16 does.
   */
  lemma CrcIsRemainder(data: bytes, r: bits)
    requires |r| == 16
    ensures r == ToBits(Crc16(data), 16)
       <==> exists q: bits :: |q| == 8 * |data| && BitsOf(data) + Zeros(16) == Recompose(q, r)
  {
    var m := BitsOf(data);
    var q0, c := Quotient(Zeros(16), m), ToBits(Crc16(data), 16);
    CrcDivides(m);
    Crc16Bits(data);
    assert m + Zeros(16) == Recompose(q0, c);
    if q: bits :| |q| == |m| && m + Zeros(16) == Recompose(q, r) {
      DivisionUnique(q, r, q0, c);
    }
  }

  lemma CrcDivides(m: bits)
    ensures m + Zeros(16) == Recompose(Quotient(Zeros(16), m), BitCrc(Zeros(16), m))
  {
    Division(Zeros(16), m);
    assert Zeros(16) + Zeros(|m|) == Zeros(|m| + 16);
    assert Xor(Zeros(|m| + 16), m + Zeros(16)) == m + Zeros(16);
  }

  // ---------- the byte-wise loop ----------

  lemma FeedOctet(c: bits, b: bits)
    requires |c| == 16 && |b| == 8
    ensures BitCrc(c, b) == Drain(Xor(c, b + Zeros(8)), 8)
  {
    var w := b + Zeros(8);
    FeedWord(c, w, 8);
    assert w[..8] == b;
    var rest := w[8..] + Zeros(8);
    assert forall k :: 0 <= k < 16 ==> !rest[k];
    assert Xor(BitCrc(c, b), rest) == BitCrc(c, b);
  }

  lemma OctetInWord(b: byte)
    ensures ToBits(b * 256, 16) == ToBits(b, 8) + Zeros(8)
  {
    var n := b * 256;
    SplitBits(n, 8, 8);
    HalveByte(n);
    assert n / 256 == b;
    LowOctetIsZero(b);
  }

  lemma LowOctetIsZero(b: byte)
    ensures ToBits(b * 256, 8) == Zeros(8)
  {
    Powers();
    Reduced(b * 256, 0, b, 8, 0x100);
    ZeroBits(8);
  }

  /** The digits of 0x1021. */
  predicate IsPoly(n: nat)
  {
    n / 256 == 0x10 && n / 16 % 16 == 2 && n % 16 == 1
  }

  lemma JoinNibbles(a: bits, b: bits, c: bits, d: bits)
    requires a == d == [false, false, false, true]
    requires b == [false, false, false, false] && c == [false, false, true, false]
    ensures a + b + c + d == GENERATOR_TAIL
  {
  }

  lemma SplitNibbles(n: nat, width: nat)
    ensures ToBits(n, width + 12)
         == ToBits(n / 4096, width) + ToBits(n / 256, 4) + ToBits(n / 16, 4) + ToBits(n, 4)
  {
    assert n / 16 / 16 == n / 256 && n / 256 / 16 == n / 4096;
    TopNibble(n, width + 8);
    TopNibble(n / 16, width + 4);
    TopNibble(n / 256, width);
  }

  lemma NibbleDigits(n: nat)
    ensures n % 16 == 0 ==> ToBits(n, 4) == [false, false, false, false]
    ensures n % 16 == 1 ==> ToBits(n, 4) == [false, false, false, true]
    ensures n % 16 == 2 ==> ToBits(n, 4) == [false, false, true, false]
  {
    Powers();
    Reduced(n, n % 16, n / 16, 4, 0x10);
    Nibble(n % 16);
  }

  lemma PolyBits(n: nat)
    requires IsPoly(n)
    ensures ToBits(n, 16) == GENERATOR_TAIL
  {
    SplitNibbles(n, 4);
    NibbleDigits(n / 4096);
    NibbleDigits(n / 256);
    NibbleDigits(n / 16);
    NibbleDigits(n);
    JoinNibbles(ToBits(n / 4096, 4), ToBits(n / 256, 4), ToBits(n / 16, 4), ToBits(n, 4));
  }

  lemma ShiftWithCarry(crc: nat, poly: nat)
    requires 0x8000 <= crc < 0x10000 && IsPoly(poly)
    ensures ToBits(BitXor(crc * 2, poly) % 0x10000, 16) == Shift(ToBits(crc, 16))
  {
    Powers();
    TopBit(crc, 16);
    DoubleBits(crc);
    ModBits(BitXor(crc * 2, poly));
    BitXorBits(crc * 2, poly, 16);
    PolyBits(poly);
  }

  lemma ShiftWithoutCarry(crc: nat)
    requires crc < 0x8000
    ensures ToBits(crc * 2 % 0x10000, 16) == Shift(ToBits(crc, 16))
  {
    Powers();
    TopBit(crc, 16);
    DoubleBits(crc);
    ModBits(crc * 2);
    var d := ToBits(crc, 16)[1..] + [false];
    assert Xor(d, Zeros(16)) == d;
  }

  lemma DoubleBits(n: nat)
    ensures ToBits(n * 2, 16) == ToBits(n, 16)[1..] + [false]
  {
    var w := 16;
    assert ToBits(n * 2, w + 1) == ToBits(n, w) + [false];
    DropTopBit(n * 2, w + 1);
  }

  lemma ShiftWord(crc: nat)
    requires crc < 0x10000
    ensures ToBits(if crc / 0x8000 % 2 == 1 then BitXor(crc * 2, POLY) % 0x10000 else crc * 2 % 0x10000, 16)
         == Shift(ToBits(crc, 16))
  {
    if crc / 0x8000 % 2 == 1 {
      ShiftWithCarry(crc, POLY);
    } else {
      ShiftWithoutCarry(crc);
    }
  }

  /** The eight shifts after one octet is loaded feed the bits of that octet. */
  lemma NextOctet(c: bits, data: bytes, i: nat, before: bits, after: bits)
    requires |c| == 16 && i < |data|
    requires before == BitCrc(c, BitsOf(data[..i]))
    requires after == Drain(Xor(before, ToBits(data[i], 8) + Zeros(8)), 8)
    ensures after == BitCrc(c, BitsOf(data[..i + 1]))
  {
    FeedOctet(before, ToBits(data[i], 8));
    ExtendByOne(c, data, i);
  }

  lemma FromZero(crc: nat, data: bytes)
    requires crc < 0x10000
    requires ToBits(crc, 16) == BitCrc(ToBits(0, 16), BitsOf(data))
    ensures crc == Crc16(data)
  {
    ZeroBits(16);
    Powers();
    ValueOfBits(crc, 16);
  }

  method Crc16Xmodem(data: bytes, initial: int) returns (crc: nat)
    ensures crc < 0x10000
    ensures ToBits(crc, 16) == BitCrc(ToBits(initial % 0x10000, 16), BitsOf(data))
    ensures initial == 0 ==> crc == Crc16(data)
  {
    crc := initial % 0x10000;
    ghost var c0 := ToBits(crc, 16);
    var i := 0;
    assert data[..0] == [];
    while i < |data|
      invariant i <= |data| && crc < 0x10000
      invariant ToBits(crc, 16) == BitCrc(c0, BitsOf(data[..i]))
    {
      ghost var before := ToBits(crc, 16);
      var octet: nat := data[i];
      LoadOctet(crc, octet);
      crc := BitXor(crc, octet * 256);
      ghost var start := ToBits(crc, 16);
      for j := 0 to 8
        invariant crc < 0x10000
        invariant ToBits(crc, 16) == Drain(start, j)
      {
        ShiftWord(crc);
        if crc / 0x8000 % 2 == 1 {
          crc := BitXor(crc * 2, POLY) % 0x10000;
        } else {
          crc := crc * 2 % 0x10000;
        }
      }
      NextOctet(c0, data, i, before, ToBits(crc, 16));
      i := i + 1;
    }
    assert data[..i] == data;
    if initial == 0 {
      FromZero(crc, data);
    }
  }

  lemma LoadOctet(crc: nat, b: byte)
    requires crc < 0x10000
    ensures BitXor(crc, b * 256) < 0x10000
    ensures ToBits(BitXor(crc, b * 256), 16) == Xor(ToBits(crc, 16), ToBits(b, 8) + Zeros(8))
  {
    BitXorBits(crc, b * 256, 16);
    OctetInWord(b);
    Powers();
    BitXorBound(crc, b * 256, 16);
  }

  lemma {:induction false} BitXorBound(a: nat, b: nat, width: nat)
    requires a < Pow2(width) && b < Pow2(width)
    ensures BitXor(a, b) < Pow2(width)
  {
    if width > 0 {
      BitXorBound(a / 2, b / 2, width - 1);
    }
  }

  lemma ExtendByOne(c: bits, data: bytes, i: nat)
    requires |c| == 16 && i < |data|
    ensures BitCrc(c, BitsOf(data[..i + 1])) == BitCrc(BitCrc(c, BitsOf(data[..i])), ToBits(data[i], 8))
  {
    assert data[..i + 1] == data[..i] + [data[i]];
    BitsOfConcat(data[..i], [data[i]]);
    BitsOfOctet(data[i]);
    Chain(c, BitsOf(data[..i]), ToBits(data[i], 8));
  }
}
