/** Powers of two, rounding, and bitwise masking of natural numbers. */
module Bits {

  function Pow2(e: nat): (p: nat)
    ensures p > 0
  {
    if e == 0 then 1 else 2 * Pow2(e - 1)
  }

  function And(a: nat, b: nat): (r: nat)
    ensures r <= a && r <= b
  {
    if a == 0 || b == 0 then 0
    else (if a % 2 == 1 && b % 2 == 1 then 1 else 0) + 2 * And(a / 2, b / 2)
  }

  function Or(a: nat, b: nat): nat {
    if a == 0 then b
    else if b == 0 then a
    else (if a % 2 == 1 || b % 2 == 1 then 1 else 0) + 2 * Or(a / 2, b / 2)
  }

  function Xor(a: nat, b: nat): nat {
    if a == 0 then b
    else if b == 0 then a
    else (if a % 2 != b % 2 then 1 else 0) + 2 * Xor(a / 2, b / 2)
  }

  /** The largest multiple of `h` that is at most `v`. */
  function Round(v: nat, h: nat): (r: nat)
    requires h > 0
    ensures r <= v < r + h
  {
    if v < h then 0 else h + Round(v - h, h)
  }

  predicate Multiple(v: nat, h: nat)
    requires h > 0
  {
    Round(v, h) == v
  }

  lemma {:induction false} RoundIsMultiple(v: nat, h: nat)
    requires h > 0
    ensures Multiple(Round(v, h), h)
  {
    if v >= h { RoundIsMultiple(v - h, h); }
  }

  lemma {:induction false} MultipleAdd(a: nat, b: nat, h: nat)
    requires h > 0 && Multiple(a, h) && Multiple(b, h)
    ensures Multiple(a + b, h)
  {
    if a > 0 { MultipleAdd(a - h, b, h); }
  }

  lemma {:induction false} MultipleTrans(a: nat, b: nat, h: nat)
    requires h > 0 && b > 0 && Multiple(a, b) && Multiple(b, h)
    ensures Multiple(a, h)
  {
    if a > 0 {
      MultipleTrans(a - b, b, h);
      MultipleAdd(a - b, b, h);
    }
  }

  lemma {:induction false} RoundMonotone(a: nat, b: nat, h: nat)
    requires h > 0 && a <= b
    ensures Round(a, h) <= Round(b, h)
  {
    if a >= h { RoundMonotone(a - h, b - h, h); }
  }

  /** Rounding the predecessor: one multiple back from a multiple, unchanged otherwise. */
  lemma {:induction false} RoundPrev(v: nat, h: nat)
    requires h > 0 && v > 0
    ensures Multiple(v, h) ==> v >= h && Round(v - 1, h) == v - h
    ensures !Multiple(v, h) ==> Round(v - 1, h) == Round(v, h)
  {
    if v > h {
      RoundPrev(v - h, h);
    } else {
      assert v == h ==> Round(h, h) == h + Round(0, h);
    }
  }

  lemma RoundStep(v: nat, h: nat)
    requires h > 0
    ensures Round(v, h) == if v < h then 0 else h + Round(v - h, h)
  {
  }

  lemma RoundSmall(v: nat, h: nat)
    requires 0 < h && v < 4 * h
    ensures var r := Round(v, h); (r == 0 || r == h || r == 2 * h || r == 3 * h) && r < 4 * h
  {
    hide Round;
    RoundStep(v, h);
    if v >= h { RoundStep(v - h, h); }
    if v >= 2 * h { RoundStep(v - 2 * h, h); }
    if v >= 3 * h { RoundStep(v - 3 * h, h); }
  }

  lemma RoundFour(v: nat, h: nat)
    requires 0 < h && v >= 4 * h
    ensures Round(v, h) == 4 * h + Round(v - 4 * h, h)
  {
    hide Round;
    RoundStep(v, h);
    RoundStep(v - h, h);
    RoundStep(v - 2 * h, h);
    RoundStep(v - 3 * h, h);
  }

  /** Rounding to four times the unit lies zero to three units below. */
  lemma {:induction false} RoundNested(v: nat, h: nat)
    requires h > 0
    ensures var d := Round(v, h) - Round(v, 4 * h); d == 0 || d == h || d == 2 * h || d == 3 * h
    ensures Multiple(v, 4 * h) ==> Multiple(v, h)
    ensures Round(Round(v, h), 4 * h) == Round(v, 4 * h)
  {
    hide Round;
    RoundStep(v, 4 * h);
    RoundStep(Round(v, h), 4 * h);
    if v < 4 * h {
      RoundSmall(v, h);
    } else {
      RoundFour(v, h);
      RoundNested(v - 4 * h, h);
    }
  }

  lemma {:induction false} RoundTwo(v: nat)
    ensures Round(v, 2) == v - v % 2
  {
    if v >= 2 { RoundTwo(v - 2); }
  }

  lemma {:induction false} RoundTwice(v: nat, h: nat)
    requires h > 0
    ensures Round(v, 2 * h) == 2 * Round(v / 2, h)
  {
    if v >= 2 * h {
      assert (v - 2 * h) / 2 == v / 2 - h;
      RoundTwice(v - 2 * h, h);
    }
  }

  lemma {:induction false} RoundOne(v: nat)
    ensures Round(v, 1) == v
  {
  }

  /** Rounding up below a multiple `n` stays within `n`. */
  lemma RoundUpWithin(v: nat, h: nat, n: nat)
    requires 0 < h && v < n && Multiple(n, h)
    ensures Round(v, h) + h <= n && Multiple(Round(v, h) + h, h)
  {
    RoundPrev(n, h);
    RoundMonotone(v, n - 1, h);
    RoundIsMultiple(v, h);
  }

  lemma {:induction false} AndOnes(v: nat, w: nat)
    requires v < Pow2(w)
    ensures And(v, Pow2(w) - 1) == v
  {
    if v != 0 {
      assert w > 0;
      assert (Pow2(w) - 1) / 2 == Pow2(w - 1) - 1;
      AndOnes(v / 2, w - 1);
    }
  }

  lemma AndEven(a: nat, b: nat)
    ensures And(a, 2 * b) == 2 * And(a / 2, b)
  {
    var c := 2 * b;
    assert c % 2 == 0 && c / 2 == b;
    if a != 0 && b != 0 { assert And(a, c) == 2 * And(a / 2, c / 2); }
  }

  /** Clearing the low `e` bits rounds down to a multiple of 2^e. */
  lemma {:induction false} AndClearsLow(v: nat, w: nat, e: nat)
    requires v < Pow2(w) && e <= w && Pow2(e) <= Pow2(w)
    ensures And(v, Pow2(w) - Pow2(e)) == Round(v, Pow2(e))
  {
    if e == 0 {
      AndOnes(v, w);
      RoundOne(v);
    } else {
      var hw, he, u := Pow2(w - 1), Pow2(e - 1), v / 2;
      assert Pow2(w) - Pow2(e) == 2 * (hw - he);
      AndClearsLow(u, w - 1, e - 1);
      calc {
        And(v, 2 * (hw - he));
        { AndEven(v, hw - he); }
        2 * And(u, hw - he);
        2 * Round(u, he);
        { RoundTwice(v, he); }
        Round(v, 2 * he);
      }
    }
  }

  lemma {:induction false} Pow2Monotone(d: nat, e: nat)
    requires d < e
    ensures 2 * Pow2(d) <= Pow2(e)
  {
    if d + 1 < e { Pow2Monotone(d, e - 1); }
  }

  lemma {:induction false} Pow2Divides(d: nat, e: nat)
    requires d <= e
    ensures Multiple(Pow2(e), Pow2(d))
  {
    if d < e {
      Pow2Divides(d, e - 1);
      MultipleAdd(Pow2(e - 1), Pow2(e - 1), Pow2(d));
    }
  }

  lemma OrZero(a: nat)
    ensures Or(a, 0) == a
  {
  }

  lemma {:induction false} OrFits(a: nat, b: nat, w: nat)
    requires a < Pow2(w) && b < Pow2(w)
    ensures Or(a, b) < Pow2(w)
  {
    if a != 0 && b != 0 { OrFits(a / 2, b / 2, w - 1); }
  }

  lemma {:induction false} XorFits(a: nat, b: nat, w: nat)
    requires a < Pow2(w) && b < Pow2(w)
    ensures Xor(a, b) < Pow2(w)
  {
    if a != 0 && b != 0 { XorFits(a / 2, b / 2, w - 1); }
  }

  lemma PowAtMost(d: nat, e: nat)
    requires d <= e
    ensures Pow2(d) <= Pow2(e)
  {
    if d < e { Pow2Monotone(d, e); }
  }

  lemma PowStep(e: nat)
    requires e > 0
    ensures Pow2(e) == 2 * Pow2(e - 1)
  {
  }

  lemma PowZero()
    ensures Pow2(0) == 1
  {
  }

  lemma PowFour(e: nat)
    ensures Pow2(e + 4) == 16 * Pow2(e)
  {
    hide Pow2;
    PowStep(e + 1);
    PowStep(e + 2);
    PowStep(e + 3);
    PowStep(e + 4);
  }

  lemma SmallPowers()
    ensures Pow2(0) == 1 && Pow2(1) == 2 && Pow2(2) == 4
    ensures Pow2(4) == 16 && Pow2(5) == 32 && Pow2(6) == 64 && Pow2(8) == 256
  {
    hide Pow2;
    PowZero();
    PowStep(1);
    PowStep(2);
    PowFour(0);
    PowFour(1);
    PowFour(2);
    PowFour(4);
  }
}
