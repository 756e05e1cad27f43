/** Unsigned 128-bit integers as two 64-bit words. */
module UInt128 {
  import opened Bits

  const W := 0x1_0000_0000_0000_0000
  const H := 0x1_0000_0000
  const MODULUS := W * W

  type Word = x: nat | x < W

  datatype U128 = U128(upper: Word, lower: Word)

  const ZERO := U128(0, 0)
  const ONE := U128(0, 1)

  function Value(x: U128): (v: nat)
    ensures v < MODULUS
  {
    x.upper * W + x.lower
  }

  function Wrap(v: int): (r: nat)
    ensures r < MODULUS
  {
    v % MODULUS
  }

  // ----- doubling, halving, and the two together -----

  function Scaled(v: nat, k: nat): nat {
    if k == 0 then v else 2 * Scaled(v, k - 1)
  }

  function Halved(v: nat, k: nat): nat {
    if k == 0 then v else Halved(v, k - 1) / 2
  }

  lemma {:induction false} HalvedTwice(v: nat, k: nat, l: nat)
    ensures Halved(v, k + l) == Halved(Halved(v, k), l)
  {
    if l > 0 { HalvedTwice(v, k, l - 1); }
  }

  lemma {:induction false} ScaledTwice(v: nat, k: nat, l: nat)
    ensures Scaled(v, k + l) == Scaled(Scaled(v, k), l)
  {
    if l > 0 { ScaledTwice(v, k, l - 1); }
  }

  lemma HalvedEight(v: nat)
    ensures Halved(v, 8) == v / 256
  {
    hide Halved;
    ScaledNone(v);
    HalvedStep(v, 0);
    HalvedStep(v, 1);
    HalvedStep(v, 2);
    HalvedStep(v, 3);
    HalvedStep(v, 4);
    HalvedStep(v, 5);
    HalvedStep(v, 6);
    HalvedStep(v, 7);
  }

  lemma HalvedStep(v: nat, k: nat)
    ensures Halved(v, k + 1) == Halved(v, k) / 2
  {
  }

  lemma HalvedWord(v: nat)
    ensures Halved(v, 64) == v / W
  {
    hide Halved;
    HalvedEight(v);
    HalvedEight(v / 256);
    HalvedTwice(v, 8, 8);
    Halved16(v / 0x1_0000);
    Halved16(v);
    HalvedTwice(v, 16, 16);
    Halved16(v / H);
    Halved16(v / H / 0x1_0000);
    HalvedTwice(v / H, 16, 16);
    HalvedTwice(v, 32, 32);
  }

  lemma Halved16(v: nat)
    ensures Halved(v, 16) == v / 0x1_0000
  {
    hide Halved;
    HalvedEight(v);
    HalvedEight(v / 256);
    HalvedTwice(v, 8, 8);
  }

  lemma {:induction false} ScaledSum(a: nat, b: nat, k: nat)
    ensures Scaled(a + b, k) == Scaled(a, k) + Scaled(b, k)
  {
    if k > 0 { ScaledSum(a, b, k - 1); }
  }

  lemma {:induction false} ScaledWord(a: nat, k: nat)
    ensures Scaled(a * W, k) == Scaled(a, k) * W
  {
    if k > 0 { ScaledWord(a, k - 1); }
  }

  // ----- shifts -----

  function WordShl(x: Word, s: nat): Word { Scaled(x, s) % W }

  function WordShr(x: Word, s: nat): Word
  {
    HalvedAtMost(x, s);
    Halved(x, s)
  }

  lemma {:induction false} HalvedAtMost(x: nat, s: nat)
    ensures Halved(x, s) <= x
  {
    if s > 0 { HalvedAtMost(x, s - 1); }
  }

  function WordAdd(x: Word, y: Word): (r: Word)
    ensures x + y < W ==> r == x + y
  {
    (x + y) % W
  }

  function WordSub(x: Word, y: Word): Word { (x - y) % W }

  function Shl(x: U128, shift: nat): U128 {
    if shift >= 128 then ZERO
    else if shift == 64 then U128(x.lower, 0)
    else if shift == 0 then x
    else if shift < 64 then
      U128(WordAdd(WordShl(x.upper, shift), WordShr(x.lower, 64 - shift)), WordShl(x.lower, shift))
    else U128(WordShl(x.lower, shift - 64), 0)
  }

  function Shr(x: U128, shift: nat): U128 {
    if shift >= 128 then ZERO
    else if shift == 64 then U128(0, x.upper)
    else if shift == 0 then x
    else if shift < 64 then
      U128(WordShr(x.upper, shift), WordAdd(WordShl(x.upper, 64 - shift), WordShr(x.lower, shift)))
    else U128(0, WordShr(x.upper, shift - 64))
  }

  lemma ScaledWordIs(v: nat)
    ensures Scaled(v, 64) == v * W
  {
    hide Scaled;
    Scaled16(v);
    Scaled16(0x1_0000 * v);
    ScaledTwice(v, 16, 16);
    Scaled16(H * v);
    Scaled16(H * 0x1_0000 * v);
    ScaledTwice(H * v, 16, 16);
    ScaledTwice(v, 32, 32);
  }

  lemma Scaled16(v: nat)
    ensures Scaled(v, 16) == 0x1_0000 * v
  {
    hide Scaled;
    ScaledNone(v);
    ScaledFour(v, 0);
    ScaledFour(v, 4);
    ScaledFour(v, 8);
    ScaledFour(v, 12);
  }

  lemma ScaledFour(v: nat, k: nat)
    ensures Scaled(v, k + 4) == 16 * Scaled(v, k)
  {
    assert Scaled(v, k + 1) == 2 * Scaled(v, k);
    assert Scaled(v, k + 2) == 2 * Scaled(v, k + 1);
    assert Scaled(v, k + 3) == 2 * Scaled(v, k + 2);
    assert Scaled(v, k + 4) == 2 * Scaled(v, k + 3);
  }

  lemma {:induction false} Pow2Sum(a: nat, b: nat)
    ensures Scaled(Pow2(a), b) == Pow2(a + b)
  {
    if b > 0 { Pow2Sum(a, b - 1); }
  }

  lemma Pow2Word()
    ensures Pow2(64) == W && Pow2(128) == MODULUS
  {
    hide Scaled, Pow2;
    PowZero();
    Pow2Sum(0, 64);
    ScaledWordIs(1);
    Pow2Sum(64, 64);
    ScaledWordIs(W);
  }

  /** Cut at bit k: the high part is the halved number, the low part is below 2^k. */
  lemma {:induction false} CutAt(v: nat, k: nat) returns (low: nat)
    ensures v == Scaled(Halved(v, k), k) + low && low < Pow2(k)
  {
    if k == 0 {
      low := 0;
    } else {
      var low' := CutAt(v, k - 1);
      var h, b := Halved(v, k), Halved(v, k - 1) % 2;
      ScaledSum(2 * h, b, k - 1);
      ScaledTwice(h, 1, k - 1);
      assert Scaled(h, 1) == 2 * Scaled(h, 0);
      assert b == 1 ==> Scaled(b, k - 1) == Pow2(k - 1) by { Pow2Sum(0, k - 1); }
      assert b == 0 ==> Scaled(b, k - 1) == 0 by { ScaledZero(k - 1); }
      low := Scaled(b, k - 1) + low';
    }
  }

  lemma {:induction false} ScaledZero(k: nat)
    ensures Scaled(0, k) == 0
  {
    if k > 0 { ScaledZero(k - 1); }
  }

  lemma {:induction false} ScaledMonotone(a: nat, b: nat, k: nat)
    requires a <= b
    ensures Scaled(a, k) <= Scaled(b, k)
  {
    if k > 0 { ScaledMonotone(a, b, k - 1); }
  }

  lemma {:induction false} HalvedBelow(v: nat, k: nat, n: nat)
    requires v < Pow2(n) && k <= n
    ensures Halved(v, k) < Pow2(n - k)
  {
    if k > 0 {
      HalvedBelow(v, k - 1, n);
      assert Pow2(n - (k - 1)) == 2 * Pow2(n - k);
    }
  }

  /** A word shifted left by t: what leaves it, and the room it leaves below 2^t. */
  lemma ShiftSplits(x: Word, t: nat)
    requires t <= 64
    ensures Scaled(x, t) == Halved(x, 64 - t) * W + WordShl(x, t)
    ensures WordShl(x, t) + Pow2(t) <= W
  {
    hide Scaled, Halved, Pow2, WordShl;
    var h := Halved(x, 64 - t);
    var low := CutAt(x, 64 - t);
    ScaledSum(Scaled(h, 64 - t), low, t);
    ScaledTwice(h, 64 - t, t);
    ScaledWordIs(h);
    ScaledSum(low, 1, t);
    ScaledMonotone(low + 1, Pow2(64 - t), t);
    Pow2Sum(64 - t, t);
    Pow2Sum(0, t);
    PowZero();
    Pow2Word();
    WordShlIs(x, t, h, Scaled(low, t));
  }

  lemma WordShlIs(x: Word, t: nat, h: nat, r: nat)
    requires Scaled(x, t) == h * W + r && r < W
    ensures WordShl(x, t) == r
  {
    hide Scaled;
    ModWord(h, r);
  }

  lemma ModParts(a: nat, b: nat)
    requires b < W
    ensures (a * W + b) % MODULUS == (a % W) * W + b
  {
  }

  lemma WordHalvedBelow(x: Word, t: nat)
    requires t <= 64
    ensures Halved(x, 64 - t) < Pow2(t)
  {
    Pow2Word();
    HalvedBelow(x, 64 - t, 64);
  }

  lemma ScaledParts(x: U128, k: nat)
    ensures Scaled(Value(x), k) == Scaled(x.upper, k) * W + Scaled(x.lower, k)
  {
    hide Scaled;
    ScaledSum(x.upper * W, x.lower, k);
    ScaledWord(x.upper, k);
  }

  lemma ModWord(a: nat, b: nat)
    ensures (a * W + b) % W == b % W
  {
  }

  lemma ShlFar(x: U128, shift: nat)
    requires shift >= 128
    ensures Scaled(Value(x), shift) % MODULUS == 0
  {
    hide Scaled, Value;
    var v := Value(x);
    var w := Scaled(v, shift - 128);
    ScaledTwice(v, shift - 128, 64);
    ScaledTwice(v, shift - 64, 64);
    ScaledWordIs(w);
    ScaledWordIs(w * W);
    ModParts(w * W, 0);
    ModWord(w, 0);
  }

  lemma ShlHigh(x: U128, shift: nat)
    requires 64 <= shift < 128
    ensures Scaled(Value(x), shift) % MODULUS == WordShl(x.lower, shift - 64) * W
  {
    hide Scaled, Value;
    var v, t := Value(x), shift - 64;
    ScaledTwice(v, t, 64);
    ScaledWordIs(Scaled(v, t));
    ModParts(Scaled(v, t), 0);
    ScaledParts(x, t);
    ModWord(Scaled(x.upper, t), Scaled(x.lower, t));
  }

  lemma ShlLow(x: U128, shift: nat)
    requires shift < 64
    ensures WordShl(x.upper, shift) + Halved(x.lower, 64 - shift) < W
    ensures Scaled(Value(x), shift) % MODULUS
            == (WordShl(x.upper, shift) + Halved(x.lower, 64 - shift)) * W + WordShl(x.lower, shift)
  {
    hide Scaled, Halved, Pow2, WordShl, Value;
    var h := Halved(x.lower, 64 - shift);
    ScaledParts(x, shift);
    ShiftSplits(x.upper, shift);
    ShiftSplits(x.lower, shift);
    WordHalvedBelow(x.lower, shift);
    JoinLow(Scaled(Value(x), shift), Halved(x.upper, 64 - shift), WordShl(x.upper, shift) + h, WordShl(x.lower, shift));
  }

  lemma JoinLow(v: nat, over: nat, high: Word, low: Word)
    requires v == (over * W + high) * W + low
    ensures v % MODULUS == high * W + low
  {
    ModParts(over * W + high, low);
    ModWord(over, high);
  }

  /** A left shift doubles `shift` times, modulo 2^128. */
  lemma ShlValue(x: U128, shift: nat)
    ensures Value(Shl(x, shift)) == Wrap(Scaled(Value(x), shift))
  {
    hide Scaled, Halved, WordShl;
    if shift >= 128 {
      ShlFar(x, shift);
    } else if shift >= 64 {
      ShlHigh(x, shift);
      WordShlNone(x.lower);
    } else if shift > 0 {
      ShlLow(x, shift);
    } else {
      ScaledNone(Value(x));
    }
  }

  lemma WordShlNone(x: Word)
    ensures WordShl(x, 0) == x
  {
  }

  lemma ScaledNone(v: nat)
    ensures Scaled(v, 0) == v && Halved(v, 0) == v
  {
  }

  lemma {:induction false} HalvedSum(a: nat, b: nat, s: nat, t: nat)
    requires s <= t
    ensures Halved(Scaled(a, t) + b, s) == Scaled(a, t - s) + Halved(b, s)
  {
    if s > 0 {
      HalvedSum(a, b, s - 1, t);
      assert Scaled(a, t - (s - 1)) == 2 * Scaled(a, t - s);
    }
  }

  /** A right shift halves `shift` times. */
  lemma ShrValue(x: U128, shift: nat)
    ensures Value(Shr(x, shift)) == Halved(Value(x), shift)
  {
    hide Scaled, Halved, Pow2;
    var v := Value(x);
    HalvedWord(v);
    if shift >= 128 {
      HalvedTwice(v, 64, 64);
      HalvedWord(v / W);
      HalvedTwice(v, 128, shift - 128);
      HalvedAtMost(0, shift - 128);
    } else if shift >= 64 {
      HalvedTwice(v, 64, shift - 64);
      ScaledNone(v / W);
    } else {
      ScaledWordIs(x.upper);
      HalvedSum(x.upper, x.lower, shift, 64);
      ShiftSplits(x.upper, 64 - shift);
      WordHalvedBelow(x.lower, 64 - shift);
      ScaledNone(v);
    }
  }

  function WordOr(x: Word, y: Word): Word {
    Pow2Word();
    OrFits(x, y, 64);
    Or(x, y)
  }

  // ----- sums, differences, comparisons -----

  function Add(x: U128, y: U128): U128 {
    U128(WordAdd(WordAdd(x.upper, y.upper), if WordAdd(x.lower, y.lower) < x.lower then 1 else 0),
         WordAdd(x.lower, y.lower))
  }

  function Sub(x: U128, y: U128): U128 {
    U128(WordSub(WordSub(x.upper, y.upper), if WordSub(x.lower, y.lower) > x.lower then 1 else 0),
         WordSub(x.lower, y.lower))
  }

  predicate Less(x: U128, y: U128) {
    if x.upper == y.upper then x.lower < y.lower else x.upper < y.upper
  }

  lemma LessIff(x: U128, y: U128)
    ensures Less(x, y) <==> Value(x) < Value(y)
  {
  }

  /** The wrapped low word betrays its carry, so the sum is exact modulo 2^128. */
  lemma AddValue(x: U128, y: U128)
    ensures Value(Add(x, y)) == Wrap(Value(x) + Value(y))
  {
    hide WordAdd;
    WordAddIs(x.lower, y.lower);
    WordAddIs(x.upper, y.upper);
    WordAddIs(WordAdd(x.upper, y.upper), if WordAdd(x.lower, y.lower) < x.lower then 1 else 0);
    WrapsBack(Value(x) + Value(y), Value(Add(x, y)));
  }

  lemma WordAddIs(x: Word, y: Word)
    ensures WordAdd(x, y) == x + y - (if x + y < W then 0 else W)
  {
  }

  lemma WrapsBack(d: int, r: nat)
    requires r < MODULUS && (r == d || r == d - MODULUS)
    ensures r == Wrap(d)
  {
  }

  lemma WordSubIs(x: Word, y: Word)
    ensures WordSub(x, y) == x - y + (if x < y then W else 0)
  {
  }

  lemma WrapsOnce(d: int, r: nat)
    requires r < MODULUS && (r == d || r == d + MODULUS)
    ensures r == Wrap(d)
  {
  }

  lemma SubValue(x: U128, y: U128)
    ensures Value(Sub(x, y)) == Wrap(Value(x) - Value(y))
  {
    hide WordSub;
    WordSubIs(x.lower, y.lower);
    WordSubIs(x.upper, y.upper);
    WordSubIs(WordSub(x.upper, y.upper), if WordSub(x.lower, y.lower) > x.lower then 1 else 0);
    WrapsOnce(Value(x) - Value(y), Value(Sub(x, y)));
  }

  // ----- products -----

  lemma MulMonotone(a: nat, b: int, c: int)
    requires b <= c
    ensures a * b <= a * c
  {
    MulNonneg(a, c - b);
    assert a * c == a * b + a * (c - b);
  }

  lemma MulNonneg(a: nat, b: nat)
    ensures a * b >= 0
  {
  }

  lemma LimbProduct(a: nat, b: nat)
    requires a < H && b < H
    ensures 0 <= a * b <= (H - 1) * (H - 1)
  {
    MulNonneg(a, b);
    MulMonotone(a, b, H - 1);
    MulMonotone(H - 1, a, H - 1);
    assert a * (H - 1) == (H - 1) * a;
  }

  type Limb = x: nat | x < H

  function LimbTimes(a: Limb, b: Limb): Word {
    LimbProduct(a, b);
    a * b
  }

  lemma RowExpands(t0: nat, t1: nat, t2: nat, t3: nat, b: nat)
    ensures (t0 * (H * H * H) + t1 * (H * H) + t2 * H + t3) * b
            == (t0 * b) * (H * H * H) + (t1 * b) * (H * H) + (t2 * b) * H + t3 * b
  {
  }

  function High(x: Word): (r: nat)
    ensures r < H
  {
    x / H
  }

  function Low(x: Word): (r: nat)
    ensures r < H
  {
    x % H
  }

  /** The four limbs, most significant first. */
  function Limbs(x: U128): (t: seq<Limb>)
    ensures |t| == 4
  {
    [High(x.upper), Low(x.upper), High(x.lower), Low(x.lower)]
  }

  function Weighted(t: seq<nat>): (v: nat)
    requires |t| == 4
  {
    t[0] * (H * H * H) + t[1] * (H * H) + t[2] * H + t[3]
  }

  lemma LimbsValue(x: U128)
    ensures Weighted(Limbs(x)) == Value(x)
  {
  }

  lemma ProductExpands(t: seq<nat>, b: seq<nat>)
    requires |t| == |b| == 4
    ensures Weighted(t) * Weighted(b)
            == (Weighted(t) * b[0]) * (H * H * H) + (Weighted(t) * b[1]) * (H * H)
               + (Weighted(t) * b[2]) * H + Weighted(t) * b[3]
  {
    var v := Weighted(t);
    hide Weighted;
    WeightedTimes(b, v);
  }

  lemma WeightedTimes(t: seq<nat>, b: nat)
    requires |t| == 4
    ensures b * Weighted(t) == (b * t[0]) * (H * H * H) + (b * t[1]) * (H * H) + (b * t[2]) * H + b * t[3]
  {
    RowExpands(t[0], t[1], t[2], t[3], b);
  }

  lemma Parts(x: Word)
    ensures x == High(x) * H + Low(x)
  {
  }

  /** The product as the sum of its columns: products of limbs i and j weigh 2^(32 (6 - i - j)). */
  lemma ProductColumns(x: U128, y: U128, t: seq<Limb>, b: seq<Limb>) returns (m: nat)
    requires t == Limbs(x) && b == Limbs(y)
    ensures Value(x) * Value(y) == m * MODULUS + Columns(
      LimbTimes(t[3], b[0]) + LimbTimes(t[2], b[1]) + LimbTimes(t[1], b[2]) + LimbTimes(t[0], b[3]),
      LimbTimes(t[3], b[1]) + LimbTimes(t[2], b[2]) + LimbTimes(t[1], b[3]),
      LimbTimes(t[3], b[2]) + LimbTimes(t[2], b[3]), LimbTimes(t[3], b[3]))
  {
    hide Limbs, Weighted, LimbTimes;
    LimbsValue(x);
    LimbsValue(y);
    ProductExpands(t, b);
    RowTimes(t, b[0]);
    RowTimes(t, b[1]);
    RowTimes(t, b[2]);
    RowTimes(t, b[3]);
    m := LimbTimes(t[2], b[0]) + LimbTimes(t[1], b[1]) + LimbTimes(t[0], b[2])
      + (LimbTimes(t[1], b[0]) + LimbTimes(t[0], b[1])) * H + LimbTimes(t[0], b[0]) * (H * H);
  }

  lemma RowTimes(t: seq<Limb>, b: Limb)
    requires |t| == 4
    ensures Weighted(t) * b == LimbTimes(t[0], b) * (H * H * H) + LimbTimes(t[1], b) * (H * H)
                               + LimbTimes(t[2], b) * H + LimbTimes(t[3], b)
  {
    RowExpands(t[0], t[1], t[2], t[3], b);
  }

  lemma Wholes(x: nat, m: nat)
    ensures Wrap(x + m * MODULUS) == Wrap(x)
  {
  }

  function Columns(first: nat, second: nat, third: nat, fourth: nat): nat {
    first * (H * H * H) + second * (H * H) + third * H + fourth
  }

  /** Splitting every limb product at its middle moves its high half one column up. */
  lemma ColumnsCarry(p03: Word, p02: Word, p13: Word, p01: Word, p12: Word, p23: Word,
                     p00: Word, p11: Word, p22: Word, p33: Word)
    ensures Columns(p00 + p11 + p22 + p33, p01 + p12 + p23, p02 + p13, p03)
      == (High(p00) + High(p11) + High(p22) + High(p33)) * MODULUS
         + Columns(Low(p00) + High(p01) + (Low(p11) + High(p12)) + (Low(p22) + High(p23)) + Low(p33),
                   Low(p01) + High(p02) + (Low(p12) + High(p13)) + Low(p23),
                   Low(p02) + High(p03) + Low(p13), Low(p03))
  {
    hide High, Low;
    Parts(p03); Parts(p02); Parts(p13); Parts(p01); Parts(p12); Parts(p23);
    Parts(p00); Parts(p11); Parts(p22); Parts(p33);
  }

  lemma ModAdd(x: nat, y: nat)
    ensures Wrap(Wrap(x) + y) == Wrap(x + y)
  {
    assert x == x / MODULUS * MODULUS + Wrap(x);
    Wholes(Wrap(x) + y, x / MODULUS);
  }

  lemma HalfShifts(x: Word)
    ensures WordShr(x, 32) == High(x) && WordShl(x, 32) == Low(x) * H
  {
    hide Scaled, Halved;
    Halved16(x);
    Halved16(x / 0x1_0000);
    HalvedTwice(x, 16, 16);
    Scaled16(x);
    Scaled16(x * 0x1_0000);
    ScaledTwice(x, 16, 16);
    Parts(x);
    ModWord(High(x), Low(x) * H);
  }

  function Combined(first32: Word, second32: Word, third32: Word, fourth32: Word): U128 {
    Add(Add(Add(U128(WordShl(first32, 32), 0), U128(WordShr(third32, 32), WordShl(third32, 32))),
            U128(second32, 0)),
        U128(0, fourth32))
  }

  lemma CombinedValue(first32: Word, second32: Word, third32: Word, fourth32: Word)
    ensures Value(Combined(first32, second32, third32, fourth32))
            == Wrap(Columns(first32, second32, third32, fourth32))
  {
    hide Add, High, Low, WordShl, WordShr, Wrap;
    var a, b := U128(WordShl(first32, 32), 0), U128(WordShr(third32, 32), WordShl(third32, 32));
    var c, d := U128(second32, 0), U128(0, fourth32);
    HalfShifts(first32);
    HalfShifts(third32);
    Parts(first32);
    Parts(third32);
    SumOfFour(a, b, c, d);
    Wholes(Value(a) + Value(b) + Value(c) + Value(d), High(first32));
  }

  lemma SumOfFour(a: U128, b: U128, c: U128, d: U128)
    ensures Value(Add(Add(Add(a, b), c), d)) == Wrap(Value(a) + Value(b) + Value(c) + Value(d))
  {
    hide Value, Add, Wrap;
    AddValue(a, b);
    AddValue(Add(a, b), c);
    AddValue(Add(Add(a, b), c), d);
    ModAdd(Value(a) + Value(b), Value(c));
    ModAdd(Value(a) + Value(b) + Value(c), Value(d));
  }

  predicate AreProducts(p: array2<Word>, top: seq<Limb>, bottom: seq<Limb>)
    reads p
  {
    && p.Length0 == p.Length1 == |top| == |bottom| == 4
    && forall r, k :: 0 <= r < 4 && 0 <= k < 4 ==> p[r, k] == LimbTimes(top[3 - r], bottom[k])
  }

  method LimbProducts(top: seq<Limb>, bottom: seq<Limb>) returns (products: array2<Word>)
    requires |top| == |bottom| == 4
    ensures fresh(products) && AreProducts(products, top, bottom)
  {
    hide LimbTimes;
    products := new Word[4, 4];
    for j := 4 downto 0
      invariant forall r, k :: 0 <= r < 4 && j <= k < 4 ==> products[r, k] == LimbTimes(top[3 - r], bottom[k])
    {
      for i := 4 downto 0
        invariant forall r, k :: 0 <= r < 4 && j < k < 4 ==> products[r, k] == LimbTimes(top[3 - r], bottom[k])
        invariant forall r :: 0 <= r < 4 - i ==> products[r, j] == LimbTimes(top[3 - r], bottom[j])
      {
        products[3 - i, j] := LimbTimes(top[i], bottom[j]);
      }
    }
  }

  lemma TimesValue(x: U128, y: U128, p: array2<Word>)
    requires AreProducts(p, Limbs(x), Limbs(y))
    ensures Wrap(Value(x) * Value(y)) == Wrap(Columns(
      Low(p[0, 0]) + High(p[0, 1]) + (Low(p[1, 1]) + High(p[1, 2])) + (Low(p[2, 2]) + High(p[2, 3])) + Low(p[3, 3]),
      Low(p[0, 1]) + High(p[0, 2]) + (Low(p[1, 2]) + High(p[1, 3])) + Low(p[2, 3]),
      Low(p[0, 2]) + High(p[0, 3]) + Low(p[1, 3]), Low(p[0, 3])))
  {
    hide High, Low, Value, Limbs, Wrap, LimbTimes, Columns;
    ColumnsCarry(p[0, 3], p[0, 2], p[1, 3], p[0, 1], p[1, 2], p[2, 3], p[0, 0], p[1, 1], p[2, 2], p[3, 3]);
    var m := ProductColumns(x, y, Limbs(x), Limbs(y));
    WrapTwice(Value(x) * Value(y), Columns(
      Low(p[0, 0]) + High(p[0, 1]) + (Low(p[1, 1]) + High(p[1, 2])) + (Low(p[2, 2]) + High(p[2, 3])) + Low(p[3, 3]),
      Low(p[0, 1]) + High(p[0, 2]) + (Low(p[1, 2]) + High(p[1, 3])) + Low(p[2, 3]),
      Low(p[0, 2]) + High(p[0, 3]) + Low(p[1, 3]), Low(p[0, 3])),
      m, High(p[0, 0]) + High(p[1, 1]) + High(p[2, 2]) + High(p[3, 3]));
  }

  lemma WrapTwice(product: nat, d: nat, m: nat, h: nat)
    requires product == m * MODULUS + (h * MODULUS + d)
    ensures Wrap(product) == Wrap(d)
  {
    hide Wrap;
    Wholes(d, m + h);
  }

  /** The column sums, row by row in 64-bit words: none of them wraps. */
  method SumColumns(p: array2<Word>) returns (first32: Word, second32: Word, third32: Word, fourth32: Word)
    requires p.Length0 == p.Length1 == 4
    ensures first32 == Low(p[0, 0]) + High(p[0, 1]) + (Low(p[1, 1]) + High(p[1, 2])) + (Low(p[2, 2]) + High(p[2, 3])) + Low(p[3, 3])
    ensures second32 == Low(p[0, 1]) + High(p[0, 2]) + (Low(p[1, 2]) + High(p[1, 3])) + Low(p[2, 3])
    ensures third32 == Low(p[0, 2]) + High(p[0, 3]) + Low(p[1, 3]) && fourth32 == Low(p[0, 3])
    ensures first32 <= 7 * (H - 1) && second32 <= 5 * (H - 1) && third32 <= 3 * (H - 1) && fourth32 < H
  {
    hide High, Low, WordAdd;
    // initial row
    fourth32 := Low(p[0, 3]);
    third32 := WordAdd(Low(p[0, 2]), High(p[0, 3]));
    second32 := WordAdd(Low(p[0, 1]), High(p[0, 2]));
    first32 := WordAdd(Low(p[0, 0]), High(p[0, 1]));
    // second row
    third32 := WordAdd(third32, Low(p[1, 3]));
    second32 := WordAdd(second32, WordAdd(Low(p[1, 2]), High(p[1, 3])));
    first32 := WordAdd(first32, WordAdd(Low(p[1, 1]), High(p[1, 2])));
    // third row
    second32 := WordAdd(second32, Low(p[2, 3]));
    first32 := WordAdd(first32, WordAdd(Low(p[2, 2]), High(p[2, 3])));
    // fourth row
    first32 := WordAdd(first32, Low(p[3, 3]));
  }

  method Times(x: U128, y: U128) returns (r: U128)
    ensures Value(r) == Wrap(Value(x) * Value(y))
  {
    hide High, Low, Value, Combined, Wrap, LimbTimes, Limbs, Columns;
    var products := LimbProducts(Limbs(x), Limbs(y));
    var first32, second32, third32, fourth32 := SumColumns(products);
    r := Combined(first32, second32, third32, fourth32);
    CombinedValue(first32, second32, third32, fourth32);
    TimesValue(x, y, products);
  }
}
