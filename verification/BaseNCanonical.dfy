/** Which base 16, 32 and 64 texts are the encoding of what they decode to. */
module BaseNCanonical {
  import opened Bits
  import opened BitAccess
  import opened BaseN
  import opened BaseNDecoding

  /** The first `n` characters are of the alphabet, the bits they have beyond whole bytes are zero and
      fewer than a character holds, and '=' fills up the last quantum. */
  predicate CanonicalAt(t: Traits, s: string, n: nat)
    requires n <= |s|
  {
    var bits := Flat(Values(t, s[..n]), t.GroupLength());
    var over := |bits| % 8;
    && (forall i :: 0 <= i < n ==> t.Decode(s[i]) != ERROR)
    && over < t.GroupLength() && bits[|bits| - over..] == Zeros(over)
    && s[n..] == seq(Padding(t, n), _ => '=')
  }

  predicate Canonical(t: Traits, s: string) {
    exists n :: 0 <= n <= |s| && CanonicalAt(t, s, n)
  }

  lemma {:induction false} OctetsSplit(bits: seq<bool>) returns (rest: seq<bool>)
    ensures Below(Octets(bits), 256) && |rest| < 8 && bits == Flat(Octets(bits), 8) + rest
  {
    hide Number, BitsOf, Pow2, Flat;
    if |bits| < 8 {
      rest := bits;
      FlatNone(8);
      assert [] + rest == bits;
    } else {
      rest := OctetsSplit(bits[8..]);
      SmallPowers();
      BitsOfNumber(bits[..8]);
      FlatFirst(Number(bits[..8]), Octets(bits[8..]), 8);
      assert bits == bits[..8] + bits[8..];
    }
  }

  lemma OctetsOver(bits: seq<bool>) returns (rest: seq<bool>)
    ensures Below(Octets(bits), 256) && bits == Flat(Octets(bits), 8) + rest
    ensures |rest| == |bits| % 8 && rest == bits[|bits| - |rest|..]
  {
    hide Octets, Flat;
    rest := OctetsSplit(bits);
    FlatBytes(Octets(bits));
    Over(|Octets(bits)|, |rest|);
  }

  lemma DecodedBytes(t: Traits, s: string)
    ensures Below(Decoded(t, s), 256)
  {
    hide Octets, Flat, Values;
    var rest := OctetsSplit(Flat(Values(t, s), t.GroupLength()));
  }

  /** The characters of the alphabet are the text of their values. */
  lemma {:induction false} TextOfValues(t: Traits, s: string)
    requires forall i :: 0 <= i < |s| ==> t.Decode(s[i]) != ERROR
    ensures |Values(t, s)| == |s| && Text(t, Values(t, s)) == s
  {
    hide Traits.Decode, Traits.Alphabet;
    if s != [] {
      var n := |s| - 1;
      TextOfValues(t, s[..n]);
      DecodeInRange(t, s[n]);
      var vals := Values(t, s);
      assert vals == Values(t, s[..n]) + [t.Decode(s[n])];
      var text := Text(t, vals);
      forall i | 0 <= i < |s| ensures text[i] == s[i] {
        if i < n { assert Text(t, Values(t, s[..n]))[i] == s[..n][i]; }
      }
    }
  }

  lemma ValuesBeforePads(t: Traits, s: string, n: nat, pads: nat)
    requires n <= |s| && s[n..] == seq(pads, _ => '=')
    ensures Values(t, s) == Values(t, s[..n])
  {
    hide Values, Traits.Decode;
    PadIsNoDigit(t);
    NoiseHasNoValues(t, s[n..]);
    ValuesAppend(t, s[..n], s[n..]);
    assert s == s[..n] + s[n..] && Values(t, s[..n]) + [] == Values(t, s[..n]);
  }

  lemma CanonicalEncodes(t: Traits, s: string, n: nat)
    requires n <= |s| && CanonicalAt(t, s, n) && Below(Decoded(t, s), 256)
    ensures Encoded(t, Decoded(t, s)) == s
  {
    hide Values, Traits.Decode, Traits.Alphabet, Groups, Octets, Flat, Padding, Pow2;
    var g, vals := t.GroupLength(), Values(t, s[..n]);
    ValuesBeforePads(t, s, n, Padding(t, n));
    TextOfValues(t, s[..n]);
    SizeIsPower(t);
    var bits := Flat(vals, g);
    var rest := OctetsOver(bits);
    var x := Decoded(t, s);
    FlatNone(8);
    FlatNone(g);
    FlatAtLeast(vals, g);
    if Flat(x, 8) == [] { assert bits == rest; }
    GroupsUnique(vals, Flat(x, 8), g, |rest|);
    assert s == s[..n] + s[n..];
  }

  lemma EncodedIsCanonical(t: Traits, x: seq<Byte>)
    ensures Canonical(t, Encoded(t, x))
  {
    hide Values, Traits.Decode, Traits.Alphabet, Groups, Flat, Padding, Pow2;
    var g := t.GroupLength();
    var vals := Groups(Flat(x, 8), g);
    GroupsBelow(Flat(x, 8), g);
    SizeIsPower(t);
    var s, n := Encoded(t, x), |vals|;
    assert s[..n] == Text(t, vals) && s[n..] == seq(Padding(t, n), _ => '=');
    ValuesOfText(t, vals);
    FlatOfGroups(Flat(x, 8), g);
    var p :| 0 <= p < g && Flat(vals, g) == Flat(x, 8) + Zeros(p);
    FlatBytes(x);
    assert |Flat(vals, g)| % 8 == p by { Over(|x|, p); }
    forall i | 0 <= i < n ensures t.Decode(s[i]) != ERROR {
      AlphabetAt(t, vals[i]);
      assert s[i] == t.Encode(vals[i]);
    }
    assert CanonicalAt(t, s, n);
  }

  lemma Over(n: nat, p: nat)
    requires p < 8
    ensures (8 * n + p) % 8 == p
  {
  }

  /** A character outside the alphabet is lost. */
  lemma NoiseIsLost(t: Traits, c: char)
    requires t.Decode(c) == ERROR
    ensures Decoded(t, [c]) == [] && Encoded(t, []) == []
  {
    hide Traits.Decode, Traits.Alphabet;
    NoiseHasNoValues(t, [c]);
    FlatNone(t.GroupLength());
    FlatNone(8);
  }

  /** Encoding undoes decoding exactly on the canonical texts. */
  lemma EncodeUndoesDecodeIff(t: Traits, s: string)
    ensures Below(Decoded(t, s), 256)
    ensures Encoded(t, Decoded(t, s)) == s <==> Canonical(t, s)
  {
    hide CanonicalAt, Encoded, Decoded;
    DecodedBytes(t, s);
    if Canonical(t, s) {
      var n :| 0 <= n <= |s| && CanonicalAt(t, s, n);
      CanonicalEncodes(t, s, n);
    }
    EncodedIsCanonical(t, Decoded(t, s));
  }

  // ----- the alphabets and the vectors of RFC 4648 -----

  /** The alphabets of sections 8, 6 and 4. */
  lemma AlphabetForms(t: Traits, v: nat)
    requires v < t.Size()
    ensures |t.Alphabet()| == t.Size()
    ensures t == B16 ==> t.Encode(v) as int == if v < 10 then '0' as int + v else 'A' as int + v - 10
    ensures t == B32 ==> t.Encode(v) as int == if v < 26 then 'A' as int + v else '2' as int + v - 26
    ensures t == B64 && v < 52 ==> t.Encode(v) as int == if v < 26 then 'A' as int + v else 'a' as int + v - 26
    ensures t == B64 && 52 <= v < 62 ==> t.Encode(v) as int == '0' as int + v - 52
    ensures t == B64 && v >= 62 ==> t.Encode(v) == if v == 62 then '+' else '/'
  {
    hide Traits.Alphabet;
    AlphabetAt(t, v);
    match t
    case B16 => Alphabet16();
    case B32 => Alphabet32();
    case B64 => Alphabet64();
  }

  lemma BitsDown(v: nat, w: nat)
    requires w > 0
    ensures BitsOf(v, w) == BitsOf(v / 2, w - 1) + [v % 2 == 1]
  {
    var b, c := BitsOf(v, w), BitsOf(v / 2, w - 1) + [v % 2 == 1];
    forall j | 0 <= j < w ensures b[j] == c[j] {
      if j < w - 1 { assert Bit(v, w - 1 - j) == Bit(v / 2, w - 2 - j); }
    }
  }

  lemma FourBits(v: nat)
    ensures BitsOf(v, 4) == [v / 8 % 2 == 1, v / 4 % 2 == 1, v / 2 % 2 == 1, v % 2 == 1]
  {
    hide Bit;
    BitsDown(v, 4);
    BitsDown(v / 2, 3);
    BitsDown(v / 4, 2);
    BitsDown(v / 8, 1);
    assert v / 2 / 2 == v / 4 && v / 4 / 2 == v / 8;
    assert BitsOf(v / 8 / 2, 0) == [];
  }

  lemma MoreBits(v: nat)
    ensures BitsOf(v, 5) == BitsOf(v / 2, 4) + [v % 2 == 1]
    ensures BitsOf(v, 6) == BitsOf(v / 4, 4) + [v / 2 % 2 == 1, v % 2 == 1]
    ensures BitsOf(v, 8) == BitsOf(v / 16, 4) + BitsOf(v, 4)
  {
    hide BitsOf;
    BitsDown(v, 5);
    BitsDown(v, 6);
    BitsDown(v / 2, 5);
    BitsDown(v, 8);
    BitsDown(v / 2, 7);
    BitsDown(v / 4, 6);
    BitsDown(v / 8, 5);
    FourBits(v);
    assert v / 2 / 2 == v / 4 && v / 4 / 2 == v / 8 && v / 8 / 2 == v / 16;
  }

  /** The letter f, the first of the vectors of section 10. */
  lemma VectorOfF()
    ensures Encoded(B16, [0x66]) == "66" && Encoded(B32, [0x66]) == "MY======" && Encoded(B64, [0x66]) == "Zg=="
  {
    hide Flat, Groups, BitsOf, Traits.Alphabet, Pow2;
    OneByteFlat();
    SmallPowers();
    GroupsUnique([6, 6], Flat([0x66], 8), 4, 0);
    GroupsUnique([12, 24], Flat([0x66], 8), 5, 2);
    GroupsUnique([25, 32], Flat([0x66], 8), 6, 4);
    AlphabetForms(B16, 6);
    AlphabetForms(B32, 12);
    AlphabetForms(B32, 24);
    AlphabetForms(B64, 25);
    AlphabetForms(B64, 32);
    assert seq(6, _ => '=') == "======" && seq(2, _ => '=') == "==" && seq(0, _ => '=') == "";
    assert Text(B16, [6, 6]) == "66" && Text(B32, [12, 24]) == "MY" && Text(B64, [25, 32]) == "Zg";
  }

  lemma TwoFlat(a: nat, b: nat, w: nat)
    ensures Flat([a, b], w) == BitsOf(a, w) + BitsOf(b, w)
  {
    hide Flat, BitsOf;
    FlatNone(w);
    FlatLast([a], b, w);
    FlatLast([], a, w);
    assert [a] + [b] == [a, b] && [] + [a] == [a];
  }

  lemma OneByteFlat()
    ensures Flat([0x66], 8) == [false, true, true, false, false, true, true, false]
    ensures Flat([6, 6], 4) == Flat([0x66], 8) + Zeros(0)
    ensures Flat([12, 24], 5) == Flat([0x66], 8) + Zeros(2)
    ensures Flat([25, 32], 6) == Flat([0x66], 8) + Zeros(4)
  {
    hide Flat, BitsOf;
    FlatNone(8);
    FlatLast([], 0x66, 8);
    assert [] + [0x66] == [0x66];
    TwoFlat(6, 6, 4);
    TwoFlat(12, 24, 5);
    TwoFlat(25, 32, 6);
    SmallBits();
  }

  lemma SmallBits()
    ensures BitsOf(0x66, 8) == [false, true, true, false, false, true, true, false]
    ensures BitsOf(6, 4) == [false, true, true, false]
    ensures BitsOf(12, 5) == [false, true, true, false, false] && BitsOf(24, 5) == [true, true, false, false, false]
    ensures BitsOf(25, 6) == [false, true, true, false, false, true] && BitsOf(32, 6) == [true, false, false, false, false, false]
  {
    hide BitsOf;
    MoreBits(0x66);
    MoreBits(12);
    MoreBits(24);
    MoreBits(25);
    MoreBits(32);
    FourBits(6);
    FourBits(0x66);
    FourBits(12);
    FourBits(8);
  }
}
