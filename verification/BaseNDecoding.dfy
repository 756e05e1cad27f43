/** Decoding base 16, 32 and 64 text, and what it does to encoded text. */
module BaseNDecoding {
  import opened Bits
  import opened UInt128
  import opened BitAccess
  import opened BaseN

  predicate IsSpace(c: char) {
    c == ' ' || '\t' <= c <= '\r'
  }

  /** The values of the characters of the alphabet; all others are passed over. */
  function Values(t: Traits, text: string): (vals: seq<nat>)
    ensures forall i :: 0 <= i < |vals| ==> vals[i] < t.Size()
  {
    if text == [] then [] else
      var c := text[|text| - 1];
      Values(t, text[..|text| - 1]) + if t.Decode(c) == ERROR then [] else DecodeInRange(t, c); [t.Decode(c)]
  }

  function Decoded(t: Traits, text: string): seq<nat> {
    Octets(Flat(Values(t, text), t.GroupLength()))
  }

  // ----- the loop -----

  /** The bits flushed and the bits in the buffer are the bits of the values so far. */
  ghost predicate Decoding(bits: seq<bool>, out: seq<nat>, buffer: nat, current: nat) {
    && Below(out, 256) && buffer < 256 && current < 8
    && bits == Flat(out, 8) + BitsOf(buffer, 8)[..current]
    && (forall i :: 0 <= i < 8 - current ==> !Bit(buffer, i))
  }

  lemma OrByte(a: Byte, b: Byte)
    ensures Or(a, b) < 256
  {
    SmallPowers();
    OrFits(a, b, 8);
  }

  /** A value that fits into the buffer, left-aligned after the bits already there. */
  lemma DecodeFits(bits: seq<bool>, out: seq<nat>, buffer: Byte, current: nat, v: nat, g: nat)
    requires Decoding(bits, out, buffer, current) && current + g <= 8 && v < Pow2(g)
    ensures var b := Or(buffer, Shl8(v, 8 - current - g));
      && b < 256
      && (current + g < 8 ==> Decoding(bits + BitsOf(v, g), out, b, current + g))
      && (current + g == 8 ==> Decoding(bits + BitsOf(v, g), out + [b], 0, 0))
  {
    hide Bit, Or, Shl8, Flat, Pow2;
    var k := 8 - current - g;
    var b := Or(buffer, Shl8(v, k));
    OrByte(buffer, Shl8(v, k));
    var want := BitsOf(buffer, 8)[..current] + BitsOf(v, g);
    forall j | 0 <= j < current + g ensures BitsOf(b, 8)[j] == want[j] {
      BitOr(buffer, Shl8(v, k), 7 - j);
      BitShl8(v, k, 7 - j);
      if j < current { assert 7 - j >= k + g; BitsAbove(v, g, 7 - j - k); }
    }
    assert BitsOf(b, 8)[..current + g] == want;
    forall i | 0 <= i < k ensures !Bit(b, i) {
      BitOr(buffer, Shl8(v, k), i);
      BitShl8(v, k, i);
    }
    if current + g == 8 {
      FlatLast(out, b, 8);
      forall i | 0 <= i < 8 ensures !Bit(0, i) { BitZero(i); }
    }
    assert bits + BitsOf(v, g) == Flat(out, 8) + want;
  }

  lemma HighBits(buffer: Byte, current: nat, v: nat, g: nat, k: nat)
    requires current < 8 < current + g && g <= 8 && k == g - (8 - current) && v < Pow2(g)
    requires forall i :: 0 <= i < 8 - current ==> !Bit(buffer, i)
    ensures Halved(v, k) < 256 && Or(buffer, Halved(v, k)) < 256
    ensures BitsOf(Or(buffer, Halved(v, k)), 8) == BitsOf(buffer, 8)[..current] + BitsOf(v, g)[..8 - current]
  {
    hide Bit, Or, Pow2, Halved;
    HalvedAtMost(v, k);
    SmallPowers();
    PowAtMost(g, 8);
    var b := Or(buffer, Halved(v, k));
    OrByte(buffer, Halved(v, k));
    var want := BitsOf(buffer, 8)[..current] + BitsOf(v, g)[..8 - current];
    forall j | 0 <= j < 8 ensures BitsOf(b, 8)[j] == want[j] {
      BitOr(buffer, Halved(v, k), 7 - j);
      BitHalved(v, k, 7 - j);
      if j < current { BitsAbove(v, g, 7 - j + k); }
    }
  }

  lemma LowerBits(current: nat, v: nat, g: nat, k: nat, r: nat)
    requires current < 8 < current + g && g <= 8 && k == g - (8 - current) && r == Shl8(v, 8 - k)
    ensures BitsOf(r, 8)[..k] == BitsOf(v, g)[8 - current..]
    ensures forall i :: 0 <= i < 8 - k ==> !Bit(r, i)
  {
    hide Bit, Shl8;
    var rest := BitsOf(v, g)[8 - current..];
    forall j | 0 <= j < k ensures BitsOf(r, 8)[j] == rest[j] {
      BitShl8(v, 8 - k, 7 - j);
    }
    forall i | 0 <= i < 8 - k ensures !Bit(r, i) {
      BitShl8(v, 8 - k, i);
    }
  }

  /** A value across a byte boundary: its high bits complete the buffer, its low bits open the next one. */
  lemma DecodeSpans(bits: seq<bool>, out: seq<nat>, buffer: Byte, current: nat, v: nat, g: nat)
    requires Decoding(bits, out, buffer, current) && 8 < current + g && g <= 8 && v < Pow2(g)
    ensures var inNext := g - (8 - current);
      && Halved(v, inNext) < 256
      && Or(buffer, Halved(v, inNext)) < 256
      && Decoding(bits + BitsOf(v, g), out + [Or(buffer, Halved(v, inNext))], Or(0, Shl8(v, 8 - inNext)), inNext)
  {
    hide Bit, Or, Shl8, Flat, Pow2, Halved, BitsOf;
    var k := g - (8 - current);
    HighBits(buffer, current, v, g, k);
    LowerBits(current, v, g, k, Shl8(v, 8 - k));
    OrNone(Shl8(v, 8 - k));
    var b, all := Or(buffer, Halved(v, k)), BitsOf(v, g);
    FlatLast(out, b, 8);
    assert all == all[..8 - current] + all[8 - current..];
  }

  lemma OrNone(r: nat)
    ensures Or(0, r) == r
  {
  }

  method Decode(t: Traits, text: string) returns (out: seq<Byte>)
    ensures out == Decoded(t, text)
  {
    hide Decoding, Or, Shl8, Halved, BitsOf, Flat, Octets, Pow2, Values, Traits.Decode, Traits.Alphabet;
    out := [];
    var current, g := 0, t.GroupLength();
    var buffer: Byte := 0;
    DecodingStarts();
    assert Values(t, text[..0]) == [] by { NoiseHasNoValues(t, []); }
    for i := 0 to |text|
      invariant current < 8 && Decoding(Flat(Values(t, text[..i]), g), out, buffer, current)
    {
      var c := text[i];
      ghost var vals := Values(t, text[..i]);
      ValuesNext(t, text, i);
      if !IsSpace(c) {
        var value := t.Decode(c);
        if value != ERROR {
          DecodeInRange(t, c);
          SizeIsPower(t);
          FlatLast(vals, value, g);
          var inCurrent := (if current + g < 8 then current + g else 8) - current;
          if inCurrent == g {
            DecodeFits(Flat(vals, g), out, buffer, current, value, g);
            buffer := Or(buffer, Shl8(value, 8 - current - g));
            current := current + g;
            if current == 8 {
              out := out + [buffer];
              buffer := 0;
              current := 0;
            }
          } else {
            var inNext := g - inCurrent;
            DecodeSpans(Flat(vals, g), out, buffer, current, value, g);
            buffer := Or(buffer, Halved(value, inNext));
            out := out + [buffer];
            buffer := 0;
            OrNone(Shl8(value, 8 - inNext));
            buffer := Or(buffer, Shl8(value, 8 - inNext));
            current := inNext;
          }
        }
      } else {
        SpaceIsNoDigit(t, c);
      }
    }
    assert text[..|text|] == text;
    DecodingDone(Flat(Values(t, text), g), out, buffer, current);
  }

  lemma ValuesNext(t: Traits, text: string, i: nat)
    requires i < |text|
    ensures Values(t, text[..i + 1])
            == Values(t, text[..i]) + if t.Decode(text[i]) == ERROR then [] else [t.Decode(text[i])]
    ensures t.Decode(text[i]) == ERROR ==> Values(t, text[..i + 1]) == Values(t, text[..i])
  {
    hide Traits.Decode, Traits.Alphabet, Values;
    assert text[..i + 1] == text[..i] + [text[i]];
    ValuesLast(t, text[..i], text[i]);
  }

  lemma DecodingStarts()
    ensures Decoding([], [], 0, 0) && forall g: nat :: Flat([], g) == []
  {
    forall i | 0 <= i < 8 ensures !Bit(0, i) { BitZero(i); }
  }

  lemma SpaceIsNoDigit(t: Traits, c: char)
    requires IsSpace(c)
    ensures t.Decode(c) == ERROR
  {
  }

  lemma DecodingDone(bits: seq<bool>, out: seq<nat>, buffer: nat, current: nat)
    requires Decoding(bits, out, buffer, current)
    ensures Octets(bits) == out
  {
    hide BitsOf, Flat, Octets;
    OctetsUnique(out, BitsOf(buffer, 8)[..current]);
  }

  // ----- the two together -----

  lemma ValuesLast(t: Traits, text: string, c: char)
    ensures Values(t, text + [c]) == Values(t, text) + if t.Decode(c) == ERROR then [] else [t.Decode(c)]
  {
    hide Traits.Decode, Traits.Alphabet;
    assert (text + [c])[..|text|] == text;
  }

  lemma {:induction false} ValuesAppend(t: Traits, a: string, b: string)
    ensures Values(t, a + b) == Values(t, a) + Values(t, b)
  {
    hide Traits.Decode, Traits.Alphabet, Values;
    if b == [] {
      assert a + b == a;
      assert Values(t, []) == [] by { NoiseHasNoValues(t, []); }
    } else {
      var n := |b| - 1;
      ValuesAppend(t, a, b[..n]);
      ValuesLast(t, a + b[..n], b[n]);
      ValuesLast(t, b[..n], b[n]);
      assert b == b[..n] + [b[n]] && a + b == a + b[..n] + [b[n]];
    }
  }

  /** Characters outside the alphabet may be inserted anywhere. */
  lemma InsertedNoise(t: Traits, a: string, noise: string, b: string)
    requires forall i :: 0 <= i < |noise| ==> t.Decode(noise[i]) == ERROR
    ensures Decoded(t, a + noise + b) == Decoded(t, a + b)
  {
    hide Traits.Decode, Traits.Alphabet, Octets, Flat;
    ValuesAppend(t, a + noise, b);
    ValuesAppend(t, a, noise);
    ValuesAppend(t, a, b);
    NoiseHasNoValues(t, noise);
    assert Values(t, a) + [] == Values(t, a);
  }

  lemma {:induction false} NoiseHasNoValues(t: Traits, noise: string)
    requires forall i :: 0 <= i < |noise| ==> t.Decode(noise[i]) == ERROR
    ensures Values(t, noise) == []
  {
    hide Traits.Decode, Traits.Alphabet;
    if noise != [] { NoiseHasNoValues(t, noise[..|noise| - 1]); }
  }

  lemma {:induction false} ValuesOfText(t: Traits, vals: seq<nat>)
    requires Below(vals, t.Size())
    ensures Values(t, Text(t, vals)) == vals
  {
    hide Traits.Decode, Traits.Alphabet;
    if vals != [] {
      var n := |vals| - 1;
      var text := Text(t, vals);
      ValuesOfText(t, vals[..n]);
      assert text[..n] == Text(t, vals[..n]);
      AlphabetAt(t, vals[n]);
      assert text[n] == t.Encode(vals[n]);
      assert vals == vals[..n] + [vals[n]];
    }
  }

  lemma {:induction false} FlatOfGroups(bits: seq<bool>, g: nat)
    requires g > 0
    ensures exists p :: 0 <= p < g && Flat(Groups(bits, g), g) == bits + Zeros(p)
    decreases |bits|
  {
    hide BitsOf, Number;
    if bits == [] {
      assert Flat(Groups(bits, g), g) == bits + Zeros(0);
    } else if |bits| <= g {
      var last := bits + Zeros(g - |bits|);
      BitsOfNumber(last);
      assert Flat([Number(last)], g) == BitsOf(Number(last), g) + Flat([], g);
      assert Flat(Groups(bits, g), g) == bits + Zeros(g - |bits|);
    } else {
      FlatOfGroups(bits[g..], g);
      var p :| 0 <= p < g && Flat(Groups(bits[g..], g), g) == bits[g..] + Zeros(p);
      BitsOfNumber(bits[..g]);
      var groups := Groups(bits, g);
      assert groups[1..] == Groups(bits[g..], g);
      assert Flat(groups, g) == bits[..g] + (bits[g..] + Zeros(p));
      assert bits == bits[..g] + bits[g..];
      assert Flat(groups, g) == bits + Zeros(p);
    }
  }

  /** Decoding undoes encoding, for every byte string and each of the three alphabets. */
  lemma RoundTrip(t: Traits, x: seq<Byte>)
    ensures Decoded(t, Encoded(t, x)) == x
  {
    hide Traits.Decode, Traits.Alphabet, Groups, Octets, Flat, Pow2, Values;
    var g := t.GroupLength();
    var vals := Groups(Flat(x, 8), g);
    GroupsBelow(Flat(x, 8), g);
    SizeIsPower(t);
    var pads := seq(Padding(t, |vals|), _ => '=');
    PadIsNoDigit(t);
    NoiseHasNoValues(t, pads);
    ValuesAppend(t, Text(t, vals), pads);
    ValuesOfText(t, vals);
    assert vals + [] == vals;
    FlatOfGroups(Flat(x, 8), g);
    var p :| 0 <= p < g && Flat(vals, g) == Flat(x, 8) + Zeros(p);
    OctetsUnique(x, Zeros(p));
  }

  lemma PadIsNoDigit(t: Traits)
    ensures t.Decode('=') == ERROR
  {
  }

  lemma {:induction false} GroupCount(bits: seq<bool>, t: Traits)
    ensures t == B16 ==> |Groups(bits, 4)| == (|bits| + 3) / 4
    ensures t == B32 ==> |Groups(bits, 5)| == (|bits| + 4) / 5
    ensures t == B64 ==> |Groups(bits, 6)| == (|bits| + 5) / 6
    decreases |bits|
  {
    hide Number;
    if |bits| > t.GroupLength() { GroupCount(bits[t.GroupLength()..], t); }
  }

  lemma CountEncoded(t: Traits, x: seq<Byte>)
    ensures var n := |Groups(Flat(x, 8), t.GroupLength())|; |Encoded(t, x)| == n + Padding(t, n)
  {
    hide Groups, Flat, Pow2, Traits.Alphabet, Padding, Below;
    GroupsBelow(Flat(x, 8), t.GroupLength());
    SizeIsPower(t);
  }

  lemma EvenNeedsNone(n: nat)
    ensures Padding(B16, 2 * n) == 0
  {
  }

  lemma Pads32(a: nat, b: nat)
    requires b < 8
    ensures Padding(B32, 8 * a + b) == if b == 0 then 0 else 8 - b
  {
    Mod8(8 * a, b);
  }

  lemma Pads64(a: nat, b: nat)
    requires b < 4
    ensures Padding(B64, 4 * a + b) == if b == 0 then 0 else 4 - b
  {
    Mod4(4 * a, b);
  }

  lemma Quanta32(n: nat)
    ensures var v := (8 * n + 4) / 5; v + Padding(B32, v) == 8 * ((n + 4) / 5)
  {
    hide Padding;
    var a, r := n / 5, n % 5;
    var b := if r == 0 then 0 else if r == 1 then 2 else if r == 2 then 4 else if r == 3 then 5 else 7;
    assert (8 * n + 4) / 5 == 8 * a + b;
    Pads32(a, b);
  }

  lemma Quanta64(n: nat)
    ensures var v := (8 * n + 5) / 6; v + Padding(B64, v) == 4 * ((n + 2) / 3)
  {
    hide Padding;
    var a, r := n / 3, n % 3;
    var b := if r == 0 then 0 else if r == 1 then 2 else 3;
    assert (8 * n + 5) / 6 == 4 * a + b;
    Pads64(a, b);
  }

  /** The lengths RFC 4648 gives in sections 8, 6 and 4: whole quanta, rounded up. */
  lemma EncodedLength(t: Traits, x: seq<Byte>)
    ensures |Encoded(t, x)| == match t
      case B16 => 2 * |x|
      case B32 => 8 * ((|x| + 4) / 5)
      case B64 => 4 * ((|x| + 2) / 3)
  {
    hide Groups, Flat, Encoded, Padding;
    CountEncoded(t, x);
    GroupCount(Flat(x, 8), t);
    FlatBytes(x);
    match t
    case B16 => EvenNeedsNone(|x|);
    case B32 => Quanta32(|x|);
    case B64 => Quanta64(|x|);
  }
}
