/** Shift-and-subtract division of 128-bit integers, and writing them out in a base. */
module UInt128Division {
  import opened Bits
  import opened Outcomes
  import opened UInt128

  // ----- setting a bit -----

  /** The low e bits are clear. */
  predicate LowClear(v: nat, e: nat) {
    e == 0 || (v % 2 == 0 && LowClear(v / 2, e - 1))
  }

  lemma {:induction false} OrClear(v: nat, k: nat)
    requires LowClear(v, k + 1)
    ensures Or(v, Pow2(k)) == v + Pow2(k)
  {
    if k == 0 {
      assert Or(v / 2, 0) == v / 2;
    } else {
      OrClear(v / 2, k - 1);
    }
  }

  lemma {:induction false} LowClearSet(v: nat, k: nat)
    requires LowClear(v, k + 1)
    ensures LowClear(v, k) && LowClear(v + Pow2(k), k)
  {
    if k > 0 {
      LowClearSet(v / 2, k - 1);
      assert (v + Pow2(k)) / 2 == v / 2 + Pow2(k - 1);
    }
  }

  lemma {:induction false} LowClearZero(e: nat)
    ensures LowClear(0, e)
  {
    if e > 0 { LowClearZero(e - 1); }
  }

  /** Clear low bits of a two-word number, seen in its words. */
  lemma {:induction false} LowClearParts(hi: nat, lo: nat, j: nat, e: nat)
    requires lo < Pow2(j) && LowClear(Scaled(hi, j) + lo, e)
    ensures e <= j ==> LowClear(lo, e)
    ensures e >= j ==> lo == 0 && LowClear(hi, e - j)
  {
    if j > 0 && e > 0 {
      assert (Scaled(hi, j) + lo) / 2 == Scaled(hi, j - 1) + lo / 2;
      LowClearParts(hi, lo / 2, j - 1, e - 1);
    }
  }

  function BitOr(x: U128, y: U128): U128 {
    U128(WordOr(x.upper, y.upper), WordOr(x.lower, y.lower))
  }

  /** Setting a bit above which everything is in place adds its weight. */
  lemma SetBit(q: U128, adder: U128, k: nat)
    requires k < 128 && Value(adder) == Pow2(k) && LowClear(Value(q), k + 1)
    ensures Value(BitOr(q, adder)) == Value(q) + Pow2(k)
  {
    hide Or, Pow2, Scaled, LowClear;
    Pow2Word();
    ScaledWordIs(q.upper);
    LowClearParts(q.upper, q.lower, 64, k + 1);
    OrZero(q.upper);
    OrZero(q.lower);
    if k < 64 {
      Pow2Monotone(k, 64);
      OrClear(q.lower, k);
    } else {
      Pow2Sum(k - 64, 64);
      ScaledWordIs(Pow2(k - 64));
      assert adder.lower == 0 && adder.upper == Pow2(k - 64);
      OrClear(q.upper, k - 64);
    }
  }

  // ----- counting bits -----

  method CountBits(x: U128) returns (out: nat)
    ensures out <= 128
    ensures if Value(x) == 0 then out == 0 else out > 0 && Pow2(out - 1) <= Value(x) < Pow2(out)
  {
    Pow2Word();
    if x.upper != 0 {
      var n := WordBits(x.upper);
      out := 64 + n;
      TwoWordBits(x, n);
    } else {
      out := WordBits(x.lower);
    }
  }

  lemma TwoWordBits(x: U128, n: nat)
    requires 0 < n && Pow2(n - 1) <= x.upper < Pow2(n)
    ensures Pow2(64 + n - 1) <= Value(x) < Pow2(64 + n)
  {
    hide Pow2, Scaled;
    Pow2Sum(n - 1, 64);
    Pow2Sum(n, 64);
    ScaledWordIs(Pow2(n - 1));
    ScaledWordIs(Pow2(n));
  }

  lemma HalvedToZero(x: nat, k: nat)
    ensures Halved(x, k) == 0 <==> x < Pow2(k)
  {
    hide Pow2, Scaled, Halved;
    var h := Halved(x, k);
    var low := CutAt(x, k);
    ScaledZero(k);
    Pow2Sum(0, k);
    PowZero();
    if h > 0 { ScaledMonotone(1, h, k); }
  }

  method WordBits(x: Word) returns (out: nat)
    ensures out <= 64
    ensures if x == 0 then out == 0 else out > 0 && Pow2(out - 1) <= x < Pow2(out)
  {
    hide Pow2;
    var v := x;
    out := 0;
    Pow2Word();
    while v != 0
      invariant out <= 64
      invariant v == Halved(x, out)
      invariant if x == 0 then out == 0 else out > 0 ==> Pow2(out - 1) <= x
      decreases v
    {
      HalvedToZero(x, out);
      HalvedToZero(x, 64);
      v := v / 2;
      out := out + 1;
    }
    HalvedToZero(x, out);
    HalvedToZero(x, 0);
    PowZero();
  }

  // ----- division -----

  lemma {:induction false} ScaledProduct(v: nat, k: nat)
    ensures Scaled(v, k) == Pow2(k) * v
  {
    if k > 0 {
      ScaledProduct(v, k - 1);
      assert Pow2(k) * v == 2 * (Pow2(k - 1) * v);
    }
  }

  /** Aligning the divisor's top bit with the dividend's: at most one place too high. */
  lemma Aligned(l: nat, r: nat, bl: nat, br: nat)
    requires 0 < r <= l && 0 < br && 0 < bl
    requires Pow2(bl - 1) <= l < Pow2(bl) && Pow2(br - 1) <= r < Pow2(br)
    ensures br <= bl && Scaled(r, bl - br) < Pow2(bl) && l < 2 * Scaled(r, bl - br)
  {
    hide Pow2, Scaled;
    if br > bl {
      if bl < br - 1 { Pow2Monotone(bl, br - 1); }
    } else {
      ScaledMonotone(r + 1, Pow2(br), bl - br);
      ScaledSum(r, 1, bl - br);
      Pow2Sum(0, bl - br);
      Pow2Sum(br, bl - br);
      ScaledMonotone(Pow2(br - 1), r, bl - br);
      Pow2Sum(br - 1, bl - br);
      PowZero();
      PowStep(bl);
    }
  }

  ghost predicate IsDivision(l: nat, r: nat, q: nat, m: nat) {
    r > 0 && q == l / r && m == l % r
  }

  lemma QuotientUnique(l: nat, r: nat, q: nat, m: nat)
    requires r > 0 && l == q * r + m && m < r
    ensures IsDivision(l, r, q, m)
  {
    var d := l / r - q;
    assert d * r == m - l % r;
    if d >= 1 { MulMonotone(r, 1, d); }
    if d <= -1 { MulMonotone(r, d, -1); }
  }

  /** What the loop of the division keeps: the quotient found so far, the bits it still lacks. */
  ghost predicate Dividing(l: nat, r: nat, q: nat, m: nat, copyd: nat, adder: nat, k: int) {
    && l == q * r + m
    && (m >= r ==> 0 <= k < 128 && copyd == Scaled(r, k) && adder == Pow2(k) && LowClear(q, k + 1) && m < 2 * copyd)
  }

  lemma DividingStep(l: nat, r: nat, q: nat, m: nat, k: nat)
    requires r > 0 && m >= r && Dividing(l, r, q, m, Scaled(r, k), Pow2(k), k)
    ensures Scaled(r, k) <= m ==> Dividing(l, r, q + Pow2(k), m - Scaled(r, k), Scaled(r, k) / 2, Pow2(k) / 2, k - 1)
    ensures Scaled(r, k) > m ==> Dividing(l, r, q, m, Scaled(r, k) / 2, Pow2(k) / 2, k - 1)
  {
    LowClearSet(q, k);
    ScaledProduct(r, k);
    assert (q + Pow2(k)) * r == q * r + Pow2(k) * r;
    assert k > 0 ==> Scaled(r, k) == 2 * Scaled(r, k - 1);
    assert k > 0 ==> Pow2(k) == 2 * Pow2(k - 1);
  }

  lemma ShiftOnce(x: U128)
    ensures Value(Shr(x, 1)) == Value(x) / 2
  {
    hide Value, Shr;
    ShrValue(x, 1);
    assert Halved(Value(x), 1) == Halved(Value(x), 0) / 2;
  }

  lemma SubExact(x: U128, y: U128)
    requires Value(y) <= Value(x)
    ensures Value(Sub(x, y)) == Value(x) - Value(y)
  {
    hide Sub, Value;
    SubValue(x, y);
  }

  lemma DivideOnce(l: nat, rhs: U128, q: U128, m: U128, copyd: U128, adder: U128, k: int)
    requires Value(m) >= Value(rhs) > 0
    requires Dividing(l, Value(rhs), Value(q), Value(m), Value(copyd), Value(adder), k)
    ensures k >= 0
    ensures Value(m) >= Value(copyd) ==>
      Dividing(l, Value(rhs), Value(BitOr(q, adder)), Value(Sub(m, copyd)), Value(Shr(copyd, 1)), Value(Shr(adder, 1)), k - 1)
    ensures Value(m) < Value(copyd) ==>
      Dividing(l, Value(rhs), Value(q), Value(m), Value(Shr(copyd, 1)), Value(Shr(adder, 1)), k - 1)
  {
    assert 0 <= k < 128 && Value(adder) == Pow2(k) && LowClear(Value(q), k + 1) && Value(copyd) == Scaled(Value(rhs), k);
    hide Value, Sub, Shr, BitOr, Scaled, Pow2, LowClear, Dividing;
    DividingStep(l, Value(rhs), Value(q), Value(m), k);
    ShiftOnce(copyd);
    ShiftOnce(adder);
    SetBit(q, adder, k);
    if Value(m) >= Value(copyd) { SubExact(m, copyd); }
  }

  lemma ShlExact(x: U128, s: nat)
    requires Scaled(Value(x), s) < MODULUS
    ensures Value(Shl(x, s)) == Scaled(Value(x), s)
  {
    hide Shl, Value, Scaled;
    ShlValue(x, s);
  }

  lemma StartAligned(lhs: U128, rhs: U128, bl: nat, br: nat)
    requires 0 < Value(rhs) <= Value(lhs) && 0 < br && 0 < bl <= 128
    requires Pow2(bl - 1) <= Value(lhs) < Pow2(bl) && Pow2(br - 1) <= Value(rhs) < Pow2(br)
    ensures br <= bl && Value(Shl(rhs, bl - br)) == Scaled(Value(rhs), bl - br)
    ensures Value(Shl(ONE, bl - br)) == Pow2(bl - br) && Value(lhs) < 2 * Scaled(Value(rhs), bl - br)
  {
    hide Shl, Scaled, Pow2;
    Aligned(Value(lhs), Value(rhs), bl, br);
    Pow2Word();
    PowAtMost(bl, 128);
    ShlExact(rhs, bl - br);
    Pow2Sum(0, bl - br);
    PowZero();
    PowStrict(bl - br, 128);
    ShlExact(ONE, bl - br);
  }

  lemma PowStrict(d: nat, e: nat)
    requires d < e
    ensures Pow2(d) < Pow2(e)
  {
    Pow2Monotone(d, e);
  }

  lemma Begin(l: nat, r: nat, d: nat)
    requires 0 < r <= l < 2 * Scaled(r, d) && d < 128
    ensures Scaled(r, d) <= l ==> Dividing(l, r, 0, l, Scaled(r, d), Pow2(d), d)
    ensures Scaled(r, d) > l ==> Dividing(l, r, 0, l, Scaled(r, d) / 2, Pow2(d) / 2, d - 1)
  {
    LowClearZero(d + 1);
    LowClearZero(d);
    assert d > 0 ==> Scaled(r, d) == 2 * Scaled(r, d - 1) && Pow2(d) == 2 * Pow2(d - 1);
  }

  /** The shift-and-subtract loop, for a dividend above the divisor. */
  method LongDivision(lhs: U128, rhs: U128) returns (q: U128, m: U128)
    requires 0 < Value(rhs) < Value(lhs)
    ensures IsDivision(Value(lhs), Value(rhs), Value(q), Value(m))
  {
    hide Value, Shl, Shr, Sub, BitOr, Scaled, Pow2, IsDivision, Dividing, Less;
    var bl := CountBits(lhs);
    var br := CountBits(rhs);
    StartAligned(lhs, rhs, bl, br);
    q, m := ZERO, lhs;
    var copyd, adder := Shl(rhs, bl - br), Shl(ONE, bl - br);
    ghost var l, r := Value(lhs), Value(rhs);
    ghost var k: int := bl - br;
    Begin(l, r, k);
    ZeroValue();
    LessIff(m, copyd);
    if Less(m, copyd) {
      ShiftOnce(copyd);
      ShiftOnce(adder);
      copyd := Shr(copyd, 1);
      adder := Shr(adder, 1);
      k := k - 1;
    }
    LessIff(m, rhs);
    while !Less(m, rhs)
      invariant Less(m, rhs) <==> Value(m) < r
      invariant Dividing(l, r, Value(q), Value(m), Value(copyd), Value(adder), k)
      decreases k
    {
      LessIff(m, copyd);
      DivideOnce(l, rhs, q, m, copyd, adder, k);
      if !Less(m, copyd) {
        m := Sub(m, copyd);
        q := BitOr(q, adder);
      }
      copyd := Shr(copyd, 1);
      adder := Shr(adder, 1);
      k := k - 1;
      LessIff(m, rhs);
    }
    Divided(l, r, Value(q), Value(m), Value(copyd), Value(adder), k);
  }

  lemma ZeroValue()
    ensures Value(ZERO) == 0 && Value(ONE) == 1
  {
  }

  lemma Divided(l: nat, r: nat, q: nat, m: nat, copyd: nat, adder: nat, k: int)
    requires Dividing(l, r, q, m, copyd, adder, k) && m < r
    ensures IsDivision(l, r, q, m)
  {
    QuotientUnique(l, r, q, m);
  }

  method DivMod(lhs: U128, rhs: U128) returns (qr: Outcome<(U128, U128)>)
    ensures rhs == ZERO ==> qr == Error(DivisionByZero)
    ensures rhs != ZERO ==> qr.Ok? && IsDivision(Value(lhs), Value(rhs), Value(qr.value.0), Value(qr.value.1))
  {
    hide IsDivision, Less;
    ghost var l, r := Value(lhs), Value(rhs);
    LessIff(lhs, rhs);
    if rhs == ZERO {
      qr := Error(DivisionByZero);
    } else if rhs == ONE {
      QuotientUnique(l, r, l, 0);
      qr := Ok((lhs, ZERO));
    } else if lhs == rhs {
      QuotientUnique(l, r, 1, 0);
      qr := Ok((ONE, ZERO));
    } else if lhs == ZERO || Less(lhs, rhs) {
      QuotientUnique(l, r, 0, l);
      qr := Ok((ZERO, lhs));
    } else {
      var q, m := LongDivision(lhs, rhs);
      qr := Ok((q, m));
    }
  }

  /** The remainder, found from the quotient by wrapping multiplication and subtraction. */
  method Mod(lhs: U128, rhs: U128) returns (m: Outcome<U128>)
    ensures rhs == ZERO ==> m == Error(DivisionByZero)
    ensures rhs != ZERO ==> m.Ok? && Value(m.value) == Value(lhs) % Value(rhs)
  {
    var qr := DivMod(lhs, rhs);
    if qr.Error? {
      return Error(qr.why);
    }
    var product := Times(rhs, qr.value.0);
    m := Ok(Sub(lhs, product));
    RemainderBySubtraction(lhs, rhs, qr.value.0, qr.value.1, product);
  }

  lemma RemainderBySubtraction(lhs: U128, rhs: U128, q: U128, m: U128, product: U128)
    requires IsDivision(Value(lhs), Value(rhs), Value(q), Value(m)) && Value(product) == Wrap(Value(rhs) * Value(q))
    ensures Value(Sub(lhs, product)) == Value(lhs) % Value(rhs)
  {
    hide Value, Sub;
    assert Value(lhs) == Value(rhs) * Value(q) + Value(m);
    assert 0 <= Value(rhs) * Value(q) < MODULUS by { MulNonneg(Value(rhs), Value(q)); }
    SubExact(lhs, product);
  }

  // ----- writing in a base -----

  const DIGITS := "0123456789abcdef"

  function Power(base: nat, e: nat): nat {
    if e == 0 then 1 else base * Power(base, e - 1)
  }

  function DigitValue(c: char): nat {
    if '0' <= c <= '9' then c as nat - '0' as nat
    else if 'a' <= c <= 'f' then c as nat - 'a' as nat + 10
    else 16
  }

  predicate AreDigits(s: string, base: nat) {
    forall i :: 0 <= i < |s| ==> DigitValue(s[i]) < base
  }

  /** The positional value of a string of digits, most significant first. */
  function NumberOf(s: string, base: nat): nat {
    if s == [] then 0 else DigitValue(s[0]) * Power(base, |s| - 1) + NumberOf(s[1..], base)
  }

  lemma DigitsAreDigits(d: nat)
    requires d < 16
    ensures DigitValue(DIGITS[d]) == d
  {
  }

  /** The digits from ten on are the letters from 'a' to 'f'. */
  lemma DigitLetters(d: nat)
    requires d < 16
    ensures DIGITS[d] as nat == if d < 10 then '0' as nat + d else 'a' as nat + d - 10
  {
  }

  lemma Prepend(v: nat, q: nat, q': nat, d: nat, base: nat, out: string)
    requires base > 0 && d < 16 && v == q * Power(base, |out|) + NumberOf(out, base) && IsDivision(q, base, q', d)
    ensures v == q' * Power(base, |out| + 1) + NumberOf([DIGITS[d]] + out, base)
  {
    hide NumberOf, Power;
    var p, n := Power(base, |out|), NumberOf(out, base);
    DigitsAreDigits(d);
    assert NumberOf([DIGITS[d]] + out, base) == d * p + n by { NumberOfCons(DIGITS[d], out, base); }
    assert Power(base, |out| + 1) == base * p by { PowerStep(base, |out|); }
    SplitDigit(q, q', d, base, p);
  }

  lemma NumberOfCons(c: char, out: string, base: nat)
    ensures NumberOf([c] + out, base) == DigitValue(c) * Power(base, |out|) + NumberOf(out, base)
  {
    assert ([c] + out)[1..] == out;
  }

  lemma PowerStep(base: nat, e: nat)
    ensures Power(base, e + 1) == base * Power(base, e)
  {
  }

  lemma SplitDigit(q: nat, q': nat, d: nat, base: nat, p: nat)
    requires IsDivision(q, base, q', d)
    ensures q * p == q' * (base * p) + d * p
  {
    assert q == q' * base + d;
    assert (q' * base + d) * p == (q' * base) * p + d * p;
    assert (q' * base) * p == q' * (base * p);
  }

  lemma {:induction false} Padding(k: nat, s: string, base: nat)
    ensures NumberOf(seq(k, _ => '0') + s, base) == NumberOf(s, base)
  {
    if k == 0 {
      assert seq(0, _ => '0') + s == s;
    } else {
      Padding(k - 1, s, base);
      assert seq(k, _ => '0') + s == ['0'] + (seq(k - 1, _ => '0') + s);
      NumberOfCons('0', seq(k - 1, _ => '0') + s, base);
    }
  }

  ghost predicate Written(v: nat, q: nat, out: string, base: nat) {
    v == q * Power(base, |out|) + NumberOf(out, base) && AreDigits(out, base)
  }

  lemma NothingWritten(v: nat, base: nat)
    ensures Written(v, v, "", base)
  {
  }

  lemma AllWritten(v: nat, out: string, base: nat)
    requires Written(v, 0, out, base)
    ensures NumberOf(out, base) == v && AreDigits(out, base)
  {
  }

  lemma WriteDigit(v: nat, q: U128, q': U128, m: U128, base: nat, out: string)
    requires 2 <= base <= 16 && Value(q) > 0 && Written(v, Value(q), out, base)
    requires IsDivision(Value(q), base, Value(q'), Value(m))
    ensures Value(q') < Value(q) && m.lower % 256 < 16
    ensures Written(v, Value(q'), [DIGITS[m.lower % 256]] + out, base)
    ensures q' == ZERO ==> DIGITS[m.lower % 256] != '0'
  {
    hide NumberOf, Power, Value, IsDivision;
    SmallRemainder(q, q', m, base);
    DigitsAreDigits(m.lower);
    Prepend(v, Value(q), Value(q'), m.lower, base, out);
    NonzeroValue(q');
  }

  /** Dividing by a base: the remainder is one digit, and all of the number when the quotient is zero. */
  lemma SmallRemainder(q: U128, q': U128, m: U128, base: nat)
    requires 2 <= base <= 16 && Value(q) > 0 && IsDivision(Value(q), base, Value(q'), Value(m))
    ensures Value(q') < Value(q) && Value(m) == m.lower == m.lower % 256 < base
    ensures Value(q') == 0 ==> m.lower > 0
  {
    assert Value(m) < base;
    assert m.upper == 0;
    hide Value;
    assert Value(q) == Value(q') * base + Value(m);
    MulMonotone(Value(q'), 2, base);
  }

  method Digits(x: U128, base: nat) returns (out: string)
    requires 2 <= base <= 16 && Value(x) > 0
    ensures AreDigits(out, base) && NumberOf(out, base) == Value(x)
    ensures out != [] && out[0] != '0'
  {
    hide Value, NumberOf, Power, IsDivision, Written, AreDigits;
    out := "";
    var q, divisor, more := x, U128(0, base), true;
    NothingWritten(Value(x), base);
    while more
      invariant Written(Value(x), Value(q), out, base)
      invariant more ==> Value(q) > 0
      invariant !more ==> q == ZERO && out != [] && out[0] != '0'
      decreases Value(q), more
    {
      var qr := DivMod(q, divisor);
      BaseValue(base);
      WriteDigit(Value(x), q, qr.value.0, qr.value.1, base, out);
      q := qr.value.0;
      out := [DIGITS[qr.value.1.lower % 256]] + out;
      more := q != ZERO;
      NonzeroValue(q);
    }
    ZeroValue();
    AllWritten(Value(x), out, base);
  }

  lemma BaseValue(base: nat)
    requires base < W
    ensures Value(U128(0, base)) == base
  {
  }

  lemma NonzeroValue(x: U128)
    ensures Value(x) > 0 <==> x != ZERO
  {
  }

  method Str(x: U128, base: nat, len: nat) returns (r: Outcome<string>)
    ensures !(2 <= base <= 16) ==> r == Error(BaseOutOfRange)
    ensures 2 <= base <= 16 ==> r.Ok? && AreDigits(r.value, base) && NumberOf(r.value, base) == Value(x)
    ensures r.Ok? ==> |r.value| >= len && |r.value| >= 1
    ensures r.Ok? && |r.value| > len && |r.value| > 1 ==> r.value[0] != '0'
  {
    if base < 2 || base > 16 {
      return Error(BaseOutOfRange);
    }
    var out := "";
    if x == ZERO {
      out := "0";
    } else {
      out := Digits(x, base);
    }
    if |out| < len {
      Padding(len - |out|, out, base);
      out := seq(len - |out|, _ => '0') + out;
    }
    r := Ok(out);
  }
}
