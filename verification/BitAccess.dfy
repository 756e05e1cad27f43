/** The single bits of natural numbers, under shifts and bitwise operations. */
module BitAccess {
  import opened Bits
  import opened UInt128

  /** Bit i, counting from the least significant. */
  predicate Bit(v: nat, i: nat) {
    if i == 0 then v % 2 == 1 else Bit(v / 2, i - 1)
  }

  lemma {:induction false} BitZero(i: nat)
    ensures !Bit(0, i)
  {
    if i > 0 { BitZero(i - 1); }
  }

  lemma {:induction false} BitOr(a: nat, b: nat, i: nat)
    ensures Bit(Or(a, b), i) <==> Bit(a, i) || Bit(b, i)
  {
    if a == 0 || b == 0 {
      BitZero(i);
    } else if i > 0 {
      BitOr(a / 2, b / 2, i - 1);
      assert Or(a, b) / 2 == Or(a / 2, b / 2);
    }
  }

  lemma {:induction false} BitAnd(a: nat, b: nat, i: nat)
    ensures Bit(And(a, b), i) <==> Bit(a, i) && Bit(b, i)
  {
    if a == 0 || b == 0 {
      BitZero(i);
    } else if i > 0 {
      BitAnd(a / 2, b / 2, i - 1);
      assert And(a, b) / 2 == And(a / 2, b / 2);
    }
  }

  lemma {:induction false} BitScaled(v: nat, k: nat, i: nat)
    ensures Bit(Scaled(v, k), i) <==> i >= k && Bit(v, i - k)
  {
    if k > 0 && i > 0 {
      BitScaled(v, k - 1, i - 1);
      assert Scaled(v, k) / 2 == Scaled(v, k - 1);
    }
  }

  lemma {:induction false} BitHalved(v: nat, k: nat, i: nat)
    ensures Bit(Halved(v, k), i) <==> Bit(v, i + k)
  {
    if k > 0 {
      BitHalved(v, k - 1, i + 1);
      assert Bit(Halved(v, k - 1), i + 1) == Bit(Halved(v, k - 1) / 2, i);
    }
  }

  lemma {:induction false} BitMask(k: nat, i: nat)
    ensures Bit(Pow2(k) - 1, i) <==> i < k
  {
    if k == 0 {
      BitZero(i);
    } else if i > 0 {
      BitMask(k - 1, i - 1);
      assert (Pow2(k) - 1) / 2 == Pow2(k - 1) - 1;
    }
  }

  lemma {:induction false} BitsAbove(v: nat, w: nat, i: nat)
    requires v < Pow2(w) && i >= w
    ensures !Bit(v, i)
  {
    if w == 0 {
      BitZero(i);
    } else {
      BitsAbove(v / 2, w - 1, i - 1);
    }
  }

  /** The bits of the two parts of a number cut at w. */
  lemma {:induction false} BitParts(hi: nat, lo: nat, w: nat, i: nat)
    requires lo < Pow2(w)
    ensures Bit(Scaled(hi, w) + lo, i) <==> if i < w then Bit(lo, i) else Bit(hi, i - w)
  {
    if w > 0 {
      if i > 0 {
        assert (Scaled(hi, w) + lo) / 2 == Scaled(hi, w - 1) + lo / 2;
        BitParts(hi, lo / 2, w - 1, i - 1);
      }
    }
  }

  lemma {:induction false} SameBits(a: nat, b: nat, w: nat)
    requires a < Pow2(w) && b < Pow2(w)
    requires forall i :: 0 <= i < w ==> (Bit(a, i) <==> Bit(b, i))
    ensures a == b
  {
    if w > 0 {
      assert Bit(a, 0) == Bit(b, 0);
      forall i | 0 <= i < w - 1 ensures Bit(a / 2, i) <==> Bit(b / 2, i) {
        assert Bit(a, i + 1) == Bit(b, i + 1);
      }
      SameBits(a / 2, b / 2, w - 1);
    }
  }

  lemma BitWordShl(v: Word, k: nat, i: nat)
    requires k <= 64 && i < 64
    ensures Bit(WordShl(v, k), i) <==> i >= k && Bit(v, i - k)
  {
    hide Scaled, Halved, Pow2, WordShl, Bit;
    var h := Halved(v, 64 - k);
    ShiftSplits(v, k);
    ScaledWordIs(h);
    BitScaled(v, k, i);
    Pow2Word();
    BitParts(h, WordShl(v, k), 64, i);
  }

  lemma BitWordShr(v: Word, k: nat, i: nat)
    requires k <= 64
    ensures Bit(WordShr(v, k), i) <==> i + k < 64 && Bit(v, i + k)
  {
    hide Halved, Pow2, Bit;
    BitHalved(v, k, i);
    Pow2Word();
    if i + k >= 64 { BitsAbove(v, 64, i + k); }
  }
}
