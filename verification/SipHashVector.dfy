/** The test vector of appendix A of the SipHash paper. */
module SipHashVector {
  import opened Bits
  import opened UInt128
  import opened SipHash

  // ----- exclusive or of words, byte by byte -----

  function N(x: bv8): nat { x as nat }

  lemma HalfByte(x: bv8)
    ensures N(x) / 2 == N(x >> 1) && N(x) % 2 == N(x & 1)
  {
  }

  lemma ZeroByte(x: bv8)
    ensures N(0) == 0 && N(1) == 1 && (x != 0 ==> N(x >> 1) < N(x))
    ensures 0 ^ x == x
  {
  }

  lemma XorParts(x: bv8, y: bv8)
    ensures (x ^ y) >> 1 == (x >> 1) ^ (y >> 1)
    ensures (x ^ y) & 1 == if x & 1 == y & 1 then 0 else 1
  {
  }

  lemma LowBit(x: bv8, y: bv8)
    ensures N(x & 1) == N(y & 1) <==> x & 1 == y & 1
  {
  }

  lemma XorNone(b: nat)
    ensures Xor(0, b) == b
  {
  }

  lemma {:induction false} XorHalves(a: nat, b: nat)
    ensures Xor(a, b) == (if a % 2 != b % 2 then 1 else 0) + 2 * Xor(a / 2, b / 2)
  {
  }

  lemma {:induction false} XorByte(x: bv8, y: bv8)
    ensures Xor(N(x), N(y)) == N(x ^ y)
    decreases N(x)
  {
    hide N, Xor;
    ZeroByte(x);
    ZeroByte(y);
    if x == 0 {
      XorNone(N(y));
    } else {
      XorHalves(N(x), N(y));
      XorByte(x >> 1, y >> 1);
      XorRejoins(x, y);
    }
  }

  lemma XorRejoins(x: bv8, y: bv8)
    ensures N(x ^ y) == (if N(x) % 2 != N(y) % 2 then 1 else 0) + 2 * N((x >> 1) ^ (y >> 1))
    ensures N(x) / 2 == N(x >> 1) && N(y) / 2 == N(y >> 1)
  {
    hide N;
    ZeroByte(x);
    HalfByte(x);
    HalfByte(y);
    HalfByte(x ^ y);
    XorParts(x, y);
    LowBit(x, y);
  }

  lemma {:induction false} XorScaled(a: nat, b: nat, x: nat, y: nat, k: nat)
    requires x < Pow2(k) && y < Pow2(k)
    ensures Xor(Scaled(a, k) + x, Scaled(b, k) + y) == Scaled(Xor(a, b), k) + Xor(x, y)
  {
    hide Xor;
    if k == 0 {
      XorNone(0);
    } else {
      XorScaled(a, b, x / 2, y / 2, k - 1);
      XorHalves(Scaled(a, k) + x, Scaled(b, k) + y);
      XorHalves(x, y);
      Even(Scaled(a, k - 1), x);
      Even(Scaled(b, k - 1), y);
    }
  }

  lemma Even(s: nat, x: nat)
    ensures (2 * s + x) / 2 == s + x / 2 && (2 * s + x) % 2 == x % 2
  {
  }

  function Next(a: nat, x: bv8): nat { 256 * a + N(x) }

  lemma XorShifted(a: nat, b: nat, m: nat, n: nat)
    requires m < 256 && n < 256
    ensures Xor(256 * a + m, 256 * b + n) == 256 * Xor(a, b) + Xor(m, n)
  {
    hide Xor, Scaled, Pow2;
    SmallPowers();
    ScaledByte(a);
    ScaledByte(b);
    ScaledByte(Xor(a, b));
    XorScaled(a, b, m, n, 8);
  }

  lemma XorOfBytes(x: bv8, y: bv8)
    ensures N(x) < 256 && N(y) < 256 && Xor(N(x), N(y)) == N(x ^ y)
  {
    hide Xor, N;
    ByteBelow(x);
    ByteBelow(y);
    XorByte(x, y);
  }

  lemma XorNextOf(a: nat, b: nat, x: bv8, y: bv8, z: bv8)
    requires N(x) < 256 && N(y) < 256 && Xor(N(x), N(y)) == N(z)
    ensures Xor(Next(a, x), Next(b, y)) == Next(Xor(a, b), z)
  {
    hide Xor, N;
    XorShifted(a, b, N(x), N(y));
  }

  lemma XorNext(a: nat, b: nat, x: bv8, y: bv8)
    ensures Xor(Next(a, x), Next(b, y)) == Next(Xor(a, b), x ^ y)
  {
    hide Xor, N, Next;
    XorOfBytes(x, y);
    XorNextOf(a, b, x, y, x ^ y);
  }

  lemma ByteBelow(x: bv8)
    ensures N(x) < 256
  {
  }

  lemma ScaledByte(a: nat)
    ensures Scaled(a, 8) == 256 * a
  {
    hide Scaled;
    ScaledNone(a);
    ScaledFour(a, 0);
    ScaledFour(a, 4);
  }

  function OfFour(i: nat, a: bv8, b: bv8, c: bv8, d: bv8): nat { Next(Next(Next(Next(i, a), b), c), d) }

  /** A word of eight bytes, most significant first. */
  function OfBytes(a: bv8, b: bv8, c: bv8, d: bv8, e: bv8, f: bv8, g: bv8, h: bv8): nat {
    OfFour(OfFour(0, a, b, c, d), e, f, g, h)
  }

  lemma XorFour(i: nat, j: nat, a: bv8, b: bv8, c: bv8, d: bv8, p: bv8, q: bv8, r: bv8, s: bv8)
    ensures Xor(OfFour(i, a, b, c, d), OfFour(j, p, q, r, s)) == OfFour(Xor(i, j), a ^ p, b ^ q, c ^ r, d ^ s)
  {
    hide Xor, Next;
    XorNext(i, j, a, p);
    XorNext(Next(i, a), Next(j, p), b, q);
    XorNext(Next(Next(i, a), b), Next(Next(j, p), q), c, r);
    XorNext(Next(Next(Next(i, a), b), c), Next(Next(Next(j, p), q), r), d, s);
  }

  lemma XorBytes(a: bv8, b: bv8, c: bv8, d: bv8, e: bv8, f: bv8, g: bv8, h: bv8,
                 p: bv8, q: bv8, r: bv8, s: bv8, t: bv8, u: bv8, v: bv8, w: bv8)
    ensures Xor(OfBytes(a, b, c, d, e, f, g, h), OfBytes(p, q, r, s, t, u, v, w))
         == OfBytes(a ^ p, b ^ q, c ^ r, d ^ s, e ^ t, f ^ u, g ^ v, h ^ w)
  {
    hide OfFour;
    XorFour(0, 0, a, b, c, d, p, q, r, s);
    XorFour(OfFour(0, a, b, c, d), OfFour(0, p, q, r, s), e, f, g, h, t, u, v, w);
  }

  // ----- rotations -----

  lemma {:induction false} OrSwap(a: nat, b: nat)
    ensures Or(a, b) == Or(b, a)
  {
    if a != 0 && b != 0 { OrSwap(a / 2, b / 2); }
  }

  lemma {:induction false} ScaledTimes(v: nat, k: nat)
    ensures Scaled(v, k) == v * Pow2(k)
  {
    if k > 0 { ScaledTimes(v, k - 1); }
  }

  /** Rotating left by `b` exchanges the upper `b` bits with the others. */
  lemma Rotated(x: Word, b: nat, p: nat, q: nat, high: nat, low: nat)
    requires 0 < b < 64 && p == Pow2(b) && q == Pow2(64 - b)
    requires x == high * q + low && high < p && low < q
    ensures RotateLeft(x, b) == low * p + high
  {
    hide Scaled, Halved, Pow2, Or, WordShl, WordShr;
    ScaledTimes(low, b);
    ScaledTimes(high, 64 - b);
    LowPart(x, b, high, low);
    HighPart(x, b, high, low);
    OrSwap(Scaled(low, b), high);
    OrDisjoint(high, low, b);
  }

  lemma LowPart(x: Word, b: nat, high: nat, low: nat)
    requires 0 < b < 64 && x == Scaled(high, 64 - b) + low && low < Pow2(64 - b)
    ensures WordShl(x, b) == Scaled(low, b)
  {
    hide Scaled, Pow2;
    ScaledSum(Scaled(high, 64 - b), low, b);
    ScaledTwice(high, 64 - b, b);
    ScaledWordIs(high);
    LowFits(low, b, Pow2(64 - b));
    ModWord(high, Scaled(low, b));
  }

  lemma HighPart(x: Word, b: nat, high: nat, low: nat)
    requires 0 < b < 64 && x == Scaled(high, 64 - b) + low && low < Pow2(64 - b)
    ensures WordShr(x, 64 - b) == high
  {
    hide Scaled, Halved, Pow2;
    HalvedSum(high, low, 64 - b, 64 - b);
    ScaledNone(high);
    HalvedBelow(low, 64 - b, 64 - b);
    PowZero();
  }

  lemma Powers()
    ensures Pow2(13) == 0x2000 && Pow2(51) == 0x8000000000000
    ensures Pow2(16) == 0x10000 && Pow2(48) == 0x1000000000000
    ensures Pow2(17) == 0x20000 && Pow2(47) == 0x800000000000
    ensures Pow2(21) == 0x200000 && Pow2(43) == 0x80000000000
    ensures Pow2(32) == 0x100000000
  {
    hide Pow2;
    SmallPowers();
    PowFour(8);
    PowStep(13);
    PowFour(12);
    PowFour(13);
    PowFour(16);
    PowFour(17);
    PowFour(20);
    PowFour(24);
    PowFour(28);
    PowFour(32);
    PowFour(36);
    PowFour(40);
    PowFour(44);
    PowStep(43);
    PowStep(42);
    PowStep(41);
    PowStep(44);
    PowStep(47);
    PowStep(48);
    PowStep(51);
    PowFour(47);
  }

  lemma LowFits(low: nat, b: nat, q: nat)
    requires 0 < b < 64 && q == Pow2(64 - b) && low < q
    ensures Scaled(low, b) < W
  {
    hide Scaled, Pow2;
    ScaledMonotone(low + 1, q, b);
    ScaledSum(low, 1, b);
    PowZero();
    Pow2Sum(0, b);
    Pow2Sum(64 - b, b);
    Pow2Word();
  }

  // ----- the rounds -----

  /** The first two updates of a round, on both pairs of lanes. */
  function FirstHalf(v: Lanes): Lanes {
    var v0, v2 := WordAdd(v.v0, v.v1), WordAdd(v.v2, v.v3);
    Lanes(v0, WordXor(RotateLeft(v.v1, 13), v0), v2, WordXor(RotateLeft(v.v3, 16), v2))
  }

  function SecondHalf(v: Lanes): Lanes {
    var v0, v2 := WordAdd(RotateLeft(v.v0, 32), v.v3), WordAdd(v.v2, v.v1);
    Lanes(v0, WordXor(RotateLeft(v.v1, 17), v2), RotateLeft(v2, 32), WordXor(RotateLeft(v.v3, 21), v0))
  }

  lemma Halves(v: Lanes)
    ensures Compress(v) == SecondHalf(FirstHalf(v))
  {
  }

  /** Round 1, first half. */
  lemma First1()
    ensures FirstHalf(Lanes(0x7469686173716475, 0x6b617f6d656e6665, 0x6b7f62616d677361, 0x7c6d6c6a717c6d7b))
      == Lanes(0xdfcae7ced8dfcada, 0xf0274b63141367b6, 0xe7eccecbdee3e0dc, 0x8b86bfb7b3989cb1)
  {
    hide Xor, RotateLeft, Pow2;
    Powers();
    Rotated(0x6b617f6d656e6665, 13, 0x2000, 0x8000000000000, 0xd6c, 0x17f6d656e6665);
    XorBytes(0x2f, 0xed, 0xac, 0xad, 0xcc, 0xcc, 0xad, 0x6c,
             0xdf, 0xca, 0xe7, 0xce, 0xd8, 0xdf, 0xca, 0xda);
    Rotated(0x7c6d6c6a717c6d7b, 16, 0x10000, 0x1000000000000, 0x7c6d, 0x6c6a717c6d7b);
    XorBytes(0x6c, 0x6a, 0x71, 0x7c, 0x6d, 0x7b, 0x7c, 0x6d,
             0xe7, 0xec, 0xce, 0xcb, 0xde, 0xe3, 0xe0, 0xdc);
  }

  /** Round 1. */
  lemma Round1()
    ensures Compress(Lanes(0x7469686173716475, 0x6b617f6d656e6665, 0x6b7f62616d677361, 0x7c6d6c6a717c6d7b))
      == Lanes(0x64668a929363847f, 0x4ed232083d9aa8dc, 0xf2f74892d8141a2e, 0x9290f9810552f4a8)
  {
    hide Xor, RotateLeft, Pow2, FirstHalf, Compress;
    Powers();
    First1();
    Halves(Lanes(0x7469686173716475, 0x6b617f6d656e6665, 0x6b7f62616d677361, 0x7c6d6c6a717c6d7b));
    Rotated(0xdfcae7ced8dfcada, 32, 0x100000000, 0x100000000, 0xdfcae7ce, 0xd8dfcada);
    Rotated(0xf0274b63141367b6, 17, 0x20000, 0x800000000000, 0x1e04e, 0x4b63141367b6);
    XorBytes(0x96, 0xc6, 0x28, 0x26, 0xcf, 0x6d, 0xe0, 0x4e,
             0xd8, 0x14, 0x1a, 0x2e, 0xf2, 0xf7, 0x48, 0x92);
    Rotated(0xd8141a2ef2f74892, 32, 0x100000000, 0x100000000, 0xd8141a2e, 0xf2f74892);
    Rotated(0x8b86bfb7b3989cb1, 21, 0x200000, 0x80000000000, 0x1170d7, 0x7b7b3989cb1);
    XorBytes(0xf6, 0xf6, 0x73, 0x13, 0x96, 0x31, 0x70, 0xd7,
             0x64, 0x66, 0x8a, 0x92, 0x93, 0x63, 0x84, 0x7f);
  }

  /** Round 2, first half. */
  lemma First2()
    ensures FirstHalf(Lanes(0x64668a929363847f, 0x4ed232083d9aa8dc, 0xf2f74892d8141a2e, 0x9290f9810552f4a8))
      == Lanes(0xb338bc9ad0fe2d5b, 0xf579bb2985e5a481, 0x85884213dd670ed6, 0x7c09474129cf9c46)
  {
    hide Xor, RotateLeft, Pow2;
    Powers();
    Rotated(0x4ed232083d9aa8dc, 13, 0x2000, 0x8000000000000, 0x9da, 0x232083d9aa8dc);
    XorBytes(0x46, 0x41, 0x07, 0xb3, 0x55, 0x1b, 0x89, 0xda,
             0xb3, 0x38, 0xbc, 0x9a, 0xd0, 0xfe, 0x2d, 0x5b);
    Rotated(0x9290f9810552f4a8, 16, 0x10000, 0x1000000000000, 0x9290, 0xf9810552f4a8);
    XorBytes(0xf9, 0x81, 0x05, 0x52, 0xf4, 0xa8, 0x92, 0x90,
             0x85, 0x88, 0x42, 0x13, 0xdd, 0x67, 0x0e, 0xd6);
  }

  /** Round 2. */
  lemma Round2()
    ensures Compress(Lanes(0x64668a929363847f, 0x4ed232083d9aa8dc, 0xf2f74892d8141a2e, 0x9290f9810552f4a8))
      == Lanes(0x4d07749cdd0858e0, 0x0d52f6f62a4f59a4, 0x634cb3577b01fd3d, 0xa5224d6f55c7d9c8)
  {
    hide Xor, RotateLeft, Pow2, FirstHalf, Compress;
    Powers();
    First2();
    Halves(Lanes(0x64668a929363847f, 0x4ed232083d9aa8dc, 0xf2f74892d8141a2e, 0x9290f9810552f4a8));
    Rotated(0xb338bc9ad0fe2d5b, 32, 0x100000000, 0x100000000, 0xb338bc9a, 0xd0fe2d5b);
    Rotated(0xf579bb2985e5a481, 17, 0x20000, 0x800000000000, 0x1eaf3, 0x3b2985e5a481);
    XorBytes(0x76, 0x53, 0x0b, 0xcb, 0x49, 0x03, 0xea, 0xf3,
             0x7b, 0x01, 0xfd, 0x3d, 0x63, 0x4c, 0xb3, 0x57);
    Rotated(0x7b01fd3d634cb357, 32, 0x100000000, 0x100000000, 0x7b01fd3d, 0x634cb357);
    Rotated(0x7c09474129cf9c46, 21, 0x200000, 0x80000000000, 0xf8128, 0x74129cf9c46);
    XorBytes(0xe8, 0x25, 0x39, 0xf3, 0x88, 0xcf, 0x81, 0x28,
             0x4d, 0x07, 0x74, 0x9c, 0xdd, 0x08, 0x58, 0xe0);
  }

  /** The lanes after the word. */
  lemma FirstWord()
    ensures Block(Lanes(0x7469686173716475, 0x6b617f6d656e6665, 0x6b7f62616d677361, 0x7b6b696e727e6c7b), 0x0706050403020100)
      == Lanes(0x4a017198de0a59e0, 0x0d52f6f62a4f59a4, 0x634cb3577b01fd3d, 0xa5224d6f55c7d9c8)
  {
    hide Xor, Compress, Pow2;
    XorBytes(0x7b, 0x6b, 0x69, 0x6e, 0x72, 0x7e, 0x6c, 0x7b,
             0x07, 0x06, 0x05, 0x04, 0x03, 0x02, 0x01, 0x00);
    Round1();
    Round2();
    XorBytes(0x4d, 0x07, 0x74, 0x9c, 0xdd, 0x08, 0x58, 0xe0,
             0x07, 0x06, 0x05, 0x04, 0x03, 0x02, 0x01, 0x00);
  }

  /** Round 3, first half. */
  lemma First3()
    ensures FirstHalf(Lanes(0x4a017198de0a59e0, 0x0d52f6f62a4f59a4, 0x634cb3577b01fd3d, 0xaa2c40635ecdd0c0))
      == Lanes(0x5754688f0859b384, 0x098aadc6e36d322e, 0x0d78f3bad9cfcdfd, 0x4d1bad77090f67d1)
  {
    hide Xor, RotateLeft, Pow2;
    Powers();
    Rotated(0x0d52f6f62a4f59a4, 13, 0x2000, 0x8000000000000, 0x1aa, 0x2f6f62a4f59a4);
    XorBytes(0x5e, 0xde, 0xc5, 0x49, 0xeb, 0x34, 0x81, 0xaa,
             0x57, 0x54, 0x68, 0x8f, 0x08, 0x59, 0xb3, 0x84);
    Rotated(0xaa2c40635ecdd0c0, 16, 0x10000, 0x1000000000000, 0xaa2c, 0x40635ecdd0c0);
    XorBytes(0x40, 0x63, 0x5e, 0xcd, 0xd0, 0xc0, 0xaa, 0x2c,
             0x0d, 0x78, 0xf3, 0xba, 0xd9, 0xcf, 0xcd, 0xfd);
  }

  /** Round 3. */
  lemma Round3()
    ensures Compress(Lanes(0x4a017198de0a59e0, 0x0d52f6f62a4f59a4, 0x634cb3577b01fd3d, 0xaa2c40635ecdd0c0))
      == Lanes(0x557560fb6063d060, 0x4c8e675bd961133e, 0xbd3d002b1703a181, 0xfb9441179a4a7315)
  {
    hide Xor, RotateLeft, Pow2, FirstHalf, Compress;
    Powers();
    First3();
    Halves(Lanes(0x4a017198de0a59e0, 0x0d52f6f62a4f59a4, 0x634cb3577b01fd3d, 0xaa2c40635ecdd0c0));
    Rotated(0x5754688f0859b384, 32, 0x100000000, 0x100000000, 0x5754688f, 0x859b384);
    Rotated(0x098aadc6e36d322e, 17, 0x20000, 0x800000000000, 0x1315, 0x2dc6e36d322e);
    XorBytes(0x5b, 0x8d, 0xc6, 0xda, 0x64, 0x5c, 0x13, 0x15,
             0x17, 0x03, 0xa1, 0x81, 0xbd, 0x3d, 0x00, 0x2b);
    Rotated(0x1703a181bd3d002b, 32, 0x100000000, 0x100000000, 0x1703a181, 0xbd3d002b);
    Rotated(0x4d1bad77090f67d1, 21, 0x200000, 0x80000000000, 0x9a375, 0x577090f67d1);
    XorBytes(0xae, 0xe1, 0x21, 0xec, 0xfa, 0x29, 0xa3, 0x75,
             0x55, 0x75, 0x60, 0xfb, 0x60, 0x63, 0xd0, 0x60);
  }

  /** Round 4, first half. */
  lemma First4()
    ensures FirstHalf(Lanes(0x557560fb6063d060, 0x4c8e675bd961133e, 0xbd3d002b1703a181, 0xfb9441179a4a7315))
      == Lanes(0xa203c85739c4e39e, 0x6ee8b37b1ba32a0f, 0xb8d14142b14e1496, 0xf9c6db08c25bef02)
  {
    hide Xor, RotateLeft, Pow2;
    Powers();
    Rotated(0x4c8e675bd961133e, 13, 0x2000, 0x8000000000000, 0x991, 0x6675bd961133e);
    XorBytes(0xcc, 0xeb, 0x7b, 0x2c, 0x22, 0x67, 0xc9, 0x91,
             0xa2, 0x03, 0xc8, 0x57, 0x39, 0xc4, 0xe3, 0x9e);
    Rotated(0xfb9441179a4a7315, 16, 0x10000, 0x1000000000000, 0xfb94, 0x41179a4a7315);
    XorBytes(0x41, 0x17, 0x9a, 0x4a, 0x73, 0x15, 0xfb, 0x94,
             0xb8, 0xd1, 0x41, 0x42, 0xb1, 0x4e, 0x14, 0x96);
  }

  /** Round 4. */
  lemma Round4()
    ensures Compress(Lanes(0x557560fb6063d060, 0x4c8e675bd961133e, 0xbd3d002b1703a181, 0xfb9441179a4a7315))
      == Lanes(0x338bbea7645fb759, 0x414fc3fb98efe374, 0xccf13ea527b9f4bd, 0x5293f5da84008f82)
  {
    hide Xor, RotateLeft, Pow2, FirstHalf, Compress;
    Powers();
    First4();
    Halves(Lanes(0x557560fb6063d060, 0x4c8e675bd961133e, 0xbd3d002b1703a181, 0xfb9441179a4a7315));
    Rotated(0xa203c85739c4e39e, 32, 0x100000000, 0x100000000, 0xa203c857, 0x39c4e39e);
    Rotated(0x6ee8b37b1ba32a0f, 17, 0x20000, 0x800000000000, 0xddd1, 0x337b1ba32a0f);
    XorBytes(0x66, 0xf6, 0x37, 0x46, 0x54, 0x1e, 0xdd, 0xd1,
             0x27, 0xb9, 0xf4, 0xbd, 0xcc, 0xf1, 0x3e, 0xa5);
    Rotated(0x27b9f4bdccf13ea5, 32, 0x100000000, 0x100000000, 0x27b9f4bd, 0xccf13ea5);
    Rotated(0xf9c6db08c25bef02, 21, 0x200000, 0x80000000000, 0x1f38db, 0x308c25bef02);
    XorBytes(0x61, 0x18, 0x4b, 0x7d, 0xe0, 0x5f, 0x38, 0xdb,
             0x33, 0x8b, 0xbe, 0xa7, 0x64, 0x5f, 0xb7, 0x59);
  }

  /** The lanes after the word. */
  lemma LastWordDone()
    ensures Block(Lanes(0x4a017198de0a59e0, 0x0d52f6f62a4f59a4, 0x634cb3577b01fd3d, 0xa5224d6f55c7d9c8), 0x0f0e0d0c0b0a0908)
      == Lanes(0x3c85b3ab6f55be51, 0x414fc3fb98efe374, 0xccf13ea527b9f4bd, 0x5293f5da84008f82)
  {
    hide Xor, Compress, Pow2;
    XorBytes(0xa5, 0x22, 0x4d, 0x6f, 0x55, 0xc7, 0xd9, 0xc8,
             0x0f, 0x0e, 0x0d, 0x0c, 0x0b, 0x0a, 0x09, 0x08);
    Round3();
    Round4();
    XorBytes(0x33, 0x8b, 0xbe, 0xa7, 0x64, 0x5f, 0xb7, 0x59,
             0x0f, 0x0e, 0x0d, 0x0c, 0x0b, 0x0a, 0x09, 0x08);
  }

  /** Round 5, first half. */
  lemma First5()
    ensures FirstHalf(Lanes(0x3c85b3ab6f55be51, 0x414fc3fb98efe374, 0xccf13ea527b9f442, 0x5293f5da84008f82))
      == Lanes(0x7dd577a70845a1c5, 0x85aa04baf42b29ec, 0x1f85347fabba83c4, 0xea5fb07f2438d157)
  {
    hide Xor, RotateLeft, Pow2;
    Powers();
    Rotated(0x414fc3fb98efe374, 13, 0x2000, 0x8000000000000, 0x829, 0x7c3fb98efe374);
    XorBytes(0xf8, 0x7f, 0x73, 0x1d, 0xfc, 0x6e, 0x88, 0x29,
             0x7d, 0xd5, 0x77, 0xa7, 0x08, 0x45, 0xa1, 0xc5);
    Rotated(0x5293f5da84008f82, 16, 0x10000, 0x1000000000000, 0x5293, 0xf5da84008f82);
    XorBytes(0xf5, 0xda, 0x84, 0x00, 0x8f, 0x82, 0x52, 0x93,
             0x1f, 0x85, 0x34, 0x7f, 0xab, 0xba, 0x83, 0xc4);
  }

  /** Round 5. */
  lemma Round5()
    ensures Compress(Lanes(0x3c85b3ab6f55be51, 0x414fc3fb98efe374, 0xccf13ea527b9f442, 0x5293f5da84008f82))
      == Lanes(0xf2a55244a20e48fe, 0xac5ad16ccc3ca6e4, 0x9fe5adb0a52f393a, 0xfd41d55e88f30308)
  {
    hide Xor, RotateLeft, Pow2, FirstHalf, Compress;
    Powers();
    First5();
    Halves(Lanes(0x3c85b3ab6f55be51, 0x414fc3fb98efe374, 0xccf13ea527b9f442, 0x5293f5da84008f82));
    Rotated(0x7dd577a70845a1c5, 32, 0x100000000, 0x100000000, 0x7dd577a7, 0x845a1c5);
    Rotated(0x85aa04baf42b29ec, 17, 0x20000, 0x800000000000, 0x10b54, 0x4baf42b29ec);
    XorBytes(0x09, 0x75, 0xe8, 0x56, 0x53, 0xd9, 0x0b, 0x54,
             0xa5, 0x2f, 0x39, 0x3a, 0x9f, 0xe5, 0xad, 0xb0);
    Rotated(0xa52f393a9fe5adb0, 32, 0x100000000, 0x100000000, 0xa52f393a, 0x9fe5adb0);
    Rotated(0xea5fb07f2438d157, 21, 0x200000, 0x80000000000, 0x1d4bf6, 0x7f2438d157);
    XorBytes(0x0f, 0xe4, 0x87, 0x1a, 0x2a, 0xfd, 0x4b, 0xf6,
             0xf2, 0xa5, 0x52, 0x44, 0xa2, 0x0e, 0x48, 0xfe);
  }

  /** Round 6, first half. */
  lemma First6()
    ensures FirstHalf(Lanes(0xf2a55244a20e48fe, 0xac5ad16ccc3ca6e4, 0x9fe5adb0a52f393a, 0xfd41d55e88f30308))
      == Lanes(0x9f0023b16e4aefe2, 0xc52dba36fa967a69, 0x9d27830f2e223c42, 0x48790bfc2d2ac103)
  {
    hide Xor, RotateLeft, Pow2;
    Powers();
    Rotated(0xac5ad16ccc3ca6e4, 13, 0x2000, 0x8000000000000, 0x158b, 0x2d16ccc3ca6e4);
    XorBytes(0x5a, 0x2d, 0x99, 0x87, 0x94, 0xdc, 0x95, 0x8b,
             0x9f, 0x00, 0x23, 0xb1, 0x6e, 0x4a, 0xef, 0xe2);
    Rotated(0xfd41d55e88f30308, 16, 0x10000, 0x1000000000000, 0xfd41, 0xd55e88f30308);
    XorBytes(0xd5, 0x5e, 0x88, 0xf3, 0x03, 0x08, 0xfd, 0x41,
             0x9d, 0x27, 0x83, 0x0f, 0x2e, 0x22, 0x3c, 0x42);
  }

  /** Round 6. */
  lemma Round6()
    ensures Compress(Lanes(0xf2a55244a20e48fe, 0xac5ad16ccc3ca6e4, 0x9fe5adb0a52f393a, 0xfd41d55e88f30308))
      == Lanes(0xb6c3fbdecc2ae4b4, 0x1638c86adc6b3cf0, 0x28b8b6ab62553d46, 0xc9465e86ec43eb95)
  {
    hide Xor, RotateLeft, Pow2, FirstHalf, Compress;
    Powers();
    First6();
    Halves(Lanes(0xf2a55244a20e48fe, 0xac5ad16ccc3ca6e4, 0x9fe5adb0a52f393a, 0xfd41d55e88f30308));
    Rotated(0x9f0023b16e4aefe2, 32, 0x100000000, 0x100000000, 0x9f0023b1, 0x6e4aefe2);
    Rotated(0xc52dba36fa967a69, 17, 0x20000, 0x800000000000, 0x18a5b, 0x3a36fa967a69);
    XorBytes(0x74, 0x6d, 0xf5, 0x2c, 0xf4, 0xd3, 0x8a, 0x5b,
             0x62, 0x55, 0x3d, 0x46, 0x28, 0xb8, 0xb6, 0xab);
    Rotated(0x62553d4628b8b6ab, 32, 0x100000000, 0x100000000, 0x62553d46, 0x28b8b6ab);
    Rotated(0x48790bfc2d2ac103, 21, 0x200000, 0x80000000000, 0x90f21, 0x3fc2d2ac103);
    XorBytes(0x7f, 0x85, 0xa5, 0x58, 0x20, 0x69, 0x0f, 0x21,
             0xb6, 0xc3, 0xfb, 0xde, 0xcc, 0x2a, 0xe4, 0xb4);
  }

  /** Round 7, first half. */
  lemma First7()
    ensures FirstHalf(Lanes(0xb6c3fbdecc2ae4b4, 0x1638c86adc6b3cf0, 0x28b8b6ab62553d46, 0xc9465e86ec43eb95))
      == Lanes(0xccfcc449a89621a4, 0xd5f19fc4cf082363, 0xf1ff15324e9928db, 0xaf79f971a50ce19d)
  {
    hide Xor, RotateLeft, Pow2;
    Powers();
    Rotated(0x1638c86adc6b3cf0, 13, 0x2000, 0x8000000000000, 0x2c7, 0xc86adc6b3cf0);
    XorBytes(0x19, 0x0d, 0x5b, 0x8d, 0x67, 0x9e, 0x02, 0xc7,
             0xcc, 0xfc, 0xc4, 0x49, 0xa8, 0x96, 0x21, 0xa4);
    Rotated(0xc9465e86ec43eb95, 16, 0x10000, 0x1000000000000, 0xc946, 0x5e86ec43eb95);
    XorBytes(0x5e, 0x86, 0xec, 0x43, 0xeb, 0x95, 0xc9, 0x46,
             0xf1, 0xff, 0x15, 0x32, 0x4e, 0x99, 0x28, 0xdb);
  }

  /** Round 7. */
  lemma Round7()
    ensures Compress(Lanes(0xb6c3fbdecc2ae4b4, 0x1638c86adc6b3cf0, 0x28b8b6ab62553d46, 0xc9465e86ec43eb95))
      == Lanes(0x58101b167209a5e6, 0xf8792ae75b66e7dd, 0x1da14c3ec7f0b4f7, 0x7624ba8a41bc4ad9)
  {
    hide Xor, RotateLeft, Pow2, FirstHalf, Compress;
    Powers();
    First7();
    Halves(Lanes(0xb6c3fbdecc2ae4b4, 0x1638c86adc6b3cf0, 0x28b8b6ab62553d46, 0xc9465e86ec43eb95));
    Rotated(0xccfcc449a89621a4, 32, 0x100000000, 0x100000000, 0xccfcc449, 0xa89621a4);
    Rotated(0xd5f19fc4cf082363, 17, 0x20000, 0x800000000000, 0x1abe3, 0x1fc4cf082363);
    XorBytes(0x3f, 0x89, 0x9e, 0x10, 0x46, 0xc7, 0xab, 0xe3,
             0xc7, 0xf0, 0xb4, 0xf7, 0x1d, 0xa1, 0x4c, 0x3e);
    Rotated(0xc7f0b4f71da14c3e, 32, 0x100000000, 0x100000000, 0xc7f0b4f7, 0x1da14c3e);
    Rotated(0xaf79f971a50ce19d, 21, 0x200000, 0x80000000000, 0x15ef3f, 0x171a50ce19d);
    XorBytes(0x2e, 0x34, 0xa1, 0x9c, 0x33, 0xb5, 0xef, 0x3f,
             0x58, 0x10, 0x1b, 0x16, 0x72, 0x09, 0xa5, 0xe6);
  }

  /** Round 8, first half. */
  lemma First8()
    ensures FirstHalf(Lanes(0x58101b167209a5e6, 0xf8792ae75b66e7dd, 0x1da14c3ec7f0b4f7, 0x7624ba8a41bc4ad9))
      == Lanes(0x508945fdcd708dc3, 0x75d5ae91118b32cc, 0x93c606c909acffd0, 0x294c4775437589f4)
  {
    hide Xor, RotateLeft, Pow2;
    Powers();
    Rotated(0xf8792ae75b66e7dd, 13, 0x2000, 0x8000000000000, 0x1f0f, 0x12ae75b66e7dd);
    XorBytes(0x25, 0x5c, 0xeb, 0x6c, 0xdc, 0xfb, 0xbf, 0x0f,
             0x50, 0x89, 0x45, 0xfd, 0xcd, 0x70, 0x8d, 0xc3);
    Rotated(0x7624ba8a41bc4ad9, 16, 0x10000, 0x1000000000000, 0x7624, 0xba8a41bc4ad9);
    XorBytes(0xba, 0x8a, 0x41, 0xbc, 0x4a, 0xd9, 0x76, 0x24,
             0x93, 0xc6, 0x06, 0xc9, 0x09, 0xac, 0xff, 0xd0);
  }

  /** Round 8. */
  lemma Round8()
    ensures Compress(Lanes(0x58101b167209a5e6, 0xf8792ae75b66e7dd, 0x1da14c3ec7f0b4f7, 0x7624ba8a41bc4ad9))
      == Lanes(0xf6bcd53893fecff1, 0x54b9964c7ea0d937, 0x1b38329c099bb55a, 0x1814bb89ad7be679)
  {
    hide Xor, RotateLeft, Pow2, FirstHalf, Compress;
    Powers();
    First8();
    Halves(Lanes(0x58101b167209a5e6, 0xf8792ae75b66e7dd, 0x1da14c3ec7f0b4f7, 0x7624ba8a41bc4ad9));
    Rotated(0x508945fdcd708dc3, 32, 0x100000000, 0x100000000, 0x508945fd, 0xcd708dc3);
    Rotated(0x75d5ae91118b32cc, 17, 0x20000, 0x800000000000, 0xebab, 0x2e91118b32cc);
    XorBytes(0x5d, 0x22, 0x23, 0x16, 0x65, 0x98, 0xeb, 0xab,
             0x09, 0x9b, 0xb5, 0x5a, 0x1b, 0x38, 0x32, 0x9c);
    Rotated(0x099bb55a1b38329c, 32, 0x100000000, 0x100000000, 0x99bb55a, 0x1b38329c);
    Rotated(0x294c4775437589f4, 21, 0x200000, 0x80000000000, 0x52988, 0x775437589f4);
    XorBytes(0xee, 0xa8, 0x6e, 0xb1, 0x3e, 0x85, 0x29, 0x88,
             0xf6, 0xbc, 0xd5, 0x38, 0x93, 0xfe, 0xcf, 0xf1);
  }

  /** The four last rounds. */
  lemma LastRounds()
    ensures Compress(Compress(Compress(Compress(Lanes(0x3c85b3ab6f55be51, 0x414fc3fb98efe374, 0xccf13ea527b9f442, 0x5293f5da84008f82)))))
      == Lanes(0xf6bcd53893fecff1, 0x54b9964c7ea0d937, 0x1b38329c099bb55a, 0x1814bb89ad7be679)
  {
    hide Compress;
    Round5();
    Round6();
    Round7();
    Round8();
  }

  /** The mark of the end. */
  lemma Masked()
    ensures WordXor(0xccf13ea527b9f4bd, 0xff) == 0xccf13ea527b9f442
  {
    hide Xor;
    XorBytes(0xcc, 0xf1, 0x3e, 0xa5, 0x27, 0xb9, 0xf4, 0xbd,
             0x00, 0x00, 0x00, 0x00, 0x00, 0x00, 0x00, 0xff);
  }

  /** The lanes folded into one word. */
  lemma Folded()
    ensures WordXor(WordXor(WordXor(0xf6bcd53893fecff1, 0x54b9964c7ea0d937), 0x1b38329c099bb55a), 0x1814bb89ad7be679)
      == 0xa129ca6149be45e5
  {
    hide Xor;
    XorBytes(0xf6, 0xbc, 0xd5, 0x38, 0x93, 0xfe, 0xcf, 0xf1,
             0x54, 0xb9, 0x96, 0x4c, 0x7e, 0xa0, 0xd9, 0x37);
    XorBytes(0xa2, 0x05, 0x43, 0x74, 0xed, 0x5e, 0x16, 0xc6,
             0x1b, 0x38, 0x32, 0x9c, 0x09, 0x9b, 0xb5, 0x5a);
    XorBytes(0xb9, 0x3d, 0x71, 0xe8, 0xe4, 0xc5, 0xa3, 0x9c,
             0x18, 0x14, 0xbb, 0x89, 0xad, 0x7b, 0xe6, 0x79);
  }

  /** The hash from the lanes. */
  lemma Finished()
    ensures Finish(Lanes(0x3c85b3ab6f55be51, 0x414fc3fb98efe374, 0xccf13ea527b9f4bd, 0x5293f5da84008f82))
      == 0xa129ca6149be45e5
  {
    hide WordXor, Compress;
    Masked();
    LastRounds();
    Folded();
  }

  /** The lanes of the key. */
  lemma Seeded()
    ensures Lanes(WordXor(0x736f6d6570736575, 0x0706050403020100), WordXor(0x646f72616e646f6d, 0x0f0e0d0c0b0a0908),
            WordXor(0x6c7967656e657261, 0x0706050403020100), WordXor(0x7465646279746573, 0x0f0e0d0c0b0a0908))
      == Lanes(0x7469686173716475, 0x6b617f6d656e6665, 0x6b7f62616d677361, 0x7b6b696e727e6c7b)
  {
    hide Xor;
    XorBytes(0x73, 0x6f, 0x6d, 0x65, 0x70, 0x73, 0x65, 0x75,
             0x07, 0x06, 0x05, 0x04, 0x03, 0x02, 0x01, 0x00);
    XorBytes(0x64, 0x6f, 0x72, 0x61, 0x6e, 0x64, 0x6f, 0x6d,
             0x0f, 0x0e, 0x0d, 0x0c, 0x0b, 0x0a, 0x09, 0x08);
    XorBytes(0x6c, 0x79, 0x67, 0x65, 0x6e, 0x65, 0x72, 0x61,
             0x07, 0x06, 0x05, 0x04, 0x03, 0x02, 0x01, 0x00);
    XorBytes(0x74, 0x65, 0x64, 0x62, 0x79, 0x74, 0x65, 0x73,
             0x0f, 0x0e, 0x0d, 0x0c, 0x0b, 0x0a, 0x09, 0x08);
  }

  // ----- the vector -----

  lemma PackStep(t: seq<Byte>, i: nat)
    requires i < |t| <= 8
    ensures Pack(t[..i + 1]) == Pack(t[..i]) + (t[i] as nat) * Pow2(8 * i)
  {
    hide Scaled, Pow2;
    ScaledTimes(t[i], 8 * i);
    assert t[..i + 1][..i] == t[..i];
  }

  lemma BytePowers()
    ensures Pow2(0) == 1 && Pow2(8) == 0x100 && Pow2(16) == 0x10000 && Pow2(24) == 0x1000000 && Pow2(32) == 0x100000000
    ensures Pow2(40) == 0x10000000000 && Pow2(48) == 0x1000000000000 && Pow2(56) == 0x100000000000000
  {
    hide Pow2;
    SmallPowers();
    Powers();
    PowFour(16);
    PowFour(20);
    PowFour(32);
    PowFour(36);
    PowFour(48);
    PowFour(52);
  }

  /** Eight bytes, least significant first. */
  lemma PackEight(t: seq<Byte>)
    requires |t| == 8
    ensures Pack(t) == t[0] as nat + 0x100 * (t[1] as nat) + 0x10000 * (t[2] as nat) + 0x1000000 * (t[3] as nat)
      + 0x100000000 * (t[4] as nat) + 0x10000000000 * (t[5] as nat) + 0x1000000000000 * (t[6] as nat)
      + 0x100000000000000 * (t[7] as nat)
  {
    hide Pack, Pow2;
    BytePowers();
    PackNone();
    assert t[..0] == [] && t[..8] == t;
    PackStep(t, 0);
    PackStep(t, 1);
    PackStep(t, 2);
    PackStep(t, 3);
    PackStep(t, 4);
    PackStep(t, 5);
    PackStep(t, 6);
    PackStep(t, 7);
  }

  const KEY: seq<Byte> := [0, 1, 2, 3, 4, 5, 6, 7, 8, 9, 10, 11, 12, 13, 14, 15]
  const MESSAGE: seq<Byte> := [0, 1, 2, 3, 4, 5, 6, 7, 8, 9, 10, 11, 12, 13, 14]

  lemma KeyWords()
    ensures Pack(KEY[..8]) == 0x0706050403020100 && Pack(KEY[8..]) == 0x0f0e0d0c0b0a0908
  {
    hide Pack;
    PackEight(KEY[..8]);
    PackEight(KEY[8..]);
  }

  lemma MessageWords()
    ensures Pack(MESSAGE[..8]) == 0x0706050403020100 && LastWord(MESSAGE) == 0x0f0e0d0c0b0a0908
  {
    hide Pack;
    PackEight(MESSAGE[..8]);
    var last := MESSAGE[8..] + [15];
    assert Tail(MESSAGE) == MESSAGE[8..] && Tail(MESSAGE) + seq(0, _ => 0) + [15] == last;
    PackEight(last);
  }

  /** The vector of appendix A: the 15 bytes 0 to 14 under the key of bytes 0 to 15. */
  lemma PaperVector()
    ensures Hash(Seed(KEY), MESSAGE) == 0xa129ca6149be45e5
  {
    hide WordXor, Compress, Pack, Block, Finish, LastWord;
    KeyWords();
    Seeded();
    MessageWords();
    assert MESSAGE[8 * 0..8 * 1] == MESSAGE[..8];
    assert Blocks(Seed(KEY), MESSAGE, 1) == Block(Blocks(Seed(KEY), MESSAGE, 0), Pack(MESSAGE[8 * 0..8 * 1]));
    FirstWord();
    LastWordDone();
    Finished();
  }
}
