/** Base 16, 32 and 64 encodings of byte strings, as RFC 4648 defines them. */
module BaseN {
  import opened Bits
  import opened UInt128
  import opened BitAccess

  type Byte = x: nat | x < 256

  datatype Traits = B16 | B32 | B64 {
    function GroupLength(): (g: nat)
      ensures 4 <= g <= 6
    {
      match this case B16 => 4 case B32 => 5 case B64 => 6
    }

    /** Characters per whole number of bytes. */
    function Quantum(): nat {
      match this case B16 => 2 case B32 => 8 case B64 => 4
    }

    function Alphabet(): string {
      match this
      case B16 => "0123456789ABCDEF"
      case B32 => "ABCDEFGHIJKLMNOPQRSTUVWXYZ234567"
      case B64 => "ABCDEFGHIJKLMNOPQRSTUVWXYZabcdefghijklmnopqrstuvwxyz0123456789+/"
    }

    function Size(): (n: nat) {
      match this case B16 => 16 case B32 => 32 case B64 => 64
    }

    function Encode(v: nat): char
      requires v < Size()
    {
      Alphabet()[v]
    }

    /** The value of a character, or ERROR. */
    function Decode(c: char): nat {
      match this
      case B16 =>
        if '0' <= c <= '9' then c as nat - '0' as nat
        else if 'A' <= c <= 'F' then c as nat - 'A' as nat + 10
        else ERROR
      case B32 =>
        if 'A' <= c <= 'Z' then c as nat - 'A' as nat
        else if '2' <= c <= '7' then c as nat - '2' as nat + 26
        else ERROR
      case B64 =>
        if 'A' <= c <= 'Z' then c as nat - 'A' as nat
        else if 'a' <= c <= 'z' then c as nat - 'a' as nat + 26
        else if '0' <= c <= '9' then c as nat - '0' as nat + 52
        else if c == '+' then 62
        else if c == '/' then 63
        else ERROR
    }
  }

  const ERROR := 255

  /** n characters in code order. */
  function Run(first: char, n: nat): string
    requires first as int + n < 0x100
  {
    seq(n, i requires 0 <= i < n => (first as int + i) as char)
  }

  lemma Digits()
    ensures Run('0', 10) == "0123456789"
  {
  }

  lemma Capitals()
    ensures Run('A', 26) == "ABCDEFGHIJKLMNOPQRSTUVWXYZ"
  {
  }

  lemma Smalls()
    ensures Run('a', 26) == "abcdefghijklmnopqrstuvwxyz"
  {
  }

  lemma Alphabet16()
    ensures B16.Alphabet() == Run('0', 10) + Run('A', 6)
  {
    Digits();
    assert Run('A', 6) == "ABCDEF";
  }

  lemma Alphabet32()
    ensures B32.Alphabet() == Run('A', 26) + Run('2', 6)
  {
    Capitals();
    assert Run('2', 6) == "234567";
  }

  lemma Alphabet64()
    ensures B64.Alphabet() == Run('A', 26) + Run('a', 26) + Run('0', 10) + "+/"
  {
    Digits();
    Capitals();
    Smalls();
    hide Run;
    assert "ABCDEFGHIJKLMNOPQRSTUVWXYZ" + "abcdefghijklmnopqrstuvwxyz" == "ABCDEFGHIJKLMNOPQRSTUVWXYZabcdefghijklmnopqrstuvwxyz";
    assert "ABCDEFGHIJKLMNOPQRSTUVWXYZabcdefghijklmnopqrstuvwxyz" + "0123456789" + "+/"
        == "ABCDEFGHIJKLMNOPQRSTUVWXYZabcdefghijklmnopqrstuvwxyz0123456789+/";
  }

  lemma AlphabetAt(t: Traits, v: nat)
    requires v < t.Size()
    ensures |t.Alphabet()| == t.Size() && t.Decode(t.Alphabet()[v]) == v
  {
    hide Traits.Alphabet;
    match t
    case B16 => Alphabet16();
    case B32 => Alphabet32();
    case B64 => Alphabet64();
  }

  lemma DecodeInRange(t: Traits, c: char)
    requires t.Decode(c) != ERROR
    ensures t.Decode(c) < t.Size() && t.Alphabet()[t.Decode(c)] == c
  {
    hide Traits.Alphabet;
    match t
    case B16 => Alphabet16();
    case B32 => Alphabet32();
    case B64 => Alphabet64();
  }

  // ----- strings of bits -----

  /** The low w bits of v, most significant first. */
  function BitsOf(v: nat, w: nat): (b: seq<bool>)
    ensures |b| == w
  {
    seq(w, j requires 0 <= j < w => Bit(v, w - 1 - j))
  }

  function Zeros(n: nat): (b: seq<bool>)
    ensures |b| == n
  {
    seq(n, _ => false)
  }

  function Number(b: seq<bool>): (v: nat)
    ensures v < Pow2(|b|)
  {
    if b == [] then 0 else 2 * Number(b[..|b| - 1]) + (if b[|b| - 1] then 1 else 0)
  }

  lemma {:induction false} BitsOfNumber(b: seq<bool>)
    ensures BitsOf(Number(b), |b|) == b
  {
    if b != [] {
      var n, c := |b|, b[..|b| - 1];
      BitsOfNumber(c);
      var v := Number(b);
      assert v / 2 == Number(c) && (v % 2 == 1 <==> b[n - 1]);
      forall j | 0 <= j < n ensures BitsOf(v, n)[j] == b[j] {
        assert BitsOf(v, n)[j] == Bit(v, n - 1 - j);
        if j < n - 1 {
          assert Bit(v, n - 1 - j) == Bit(v / 2, n - 2 - j);
          assert BitsOf(Number(c), n - 1)[j] == c[j];
        }
      }
    }
  }

  lemma NumberOfBits(v: nat, w: nat)
    requires v < Pow2(w)
    ensures Number(BitsOf(v, w)) == v
  {
    hide Bit, Number, Pow2;
    var b := BitsOf(v, w);
    BitsOfNumber(b);
    forall i | 0 <= i < w ensures Bit(Number(b), i) <==> Bit(v, i) {
      assert BitsOf(Number(b), w)[w - 1 - i] == BitsOf(v, w)[w - 1 - i];
    }
    SameBits(Number(b), v, w);
  }

  /** Numbers of w bits each, one after another. */
  function Flat(vals: seq<nat>, w: nat): seq<bool> {
    if vals == [] then [] else BitsOf(vals[0], w) + Flat(vals[1..], w)
  }

  lemma {:induction false} FlatAppend(a: seq<nat>, b: seq<nat>, w: nat)
    ensures Flat(a + b, w) == Flat(a, w) + Flat(b, w)
  {
    hide Flat, BitsOf;
    FlatNone(w);
    if a == [] {
      assert a + b == b;
    } else {
      FlatAppend(a[1..], b, w);
      FlatFirst(a[0], a[1..], w);
      FlatFirst(a[0], a[1..] + b, w);
      assert a == [a[0]] + a[1..] && a + b == [a[0]] + (a[1..] + b);
    }
  }

  lemma FlatNone(w: nat)
    ensures Flat([], w) == []
  {
  }

  lemma FlatFirst(v: nat, rest: seq<nat>, w: nat)
    ensures Flat([v] + rest, w) == BitsOf(v, w) + Flat(rest, w)
  {
    hide BitsOf;
    assert ([v] + rest)[1..] == rest;
  }

  lemma FlatLast(a: seq<nat>, v: nat, w: nat)
    ensures Flat(a + [v], w) == Flat(a, w) + BitsOf(v, w)
  {
    hide BitsOf, Flat;
    FlatAppend(a, [v], w);
    FlatFirst(v, [], w);
    FlatNone(w);
    assert [v] + [] == [v];
  }

  lemma {:induction false} FlatBytes(x: seq<nat>)
    ensures |Flat(x, 8)| == 8 * |x|
  {
    hide BitsOf;
    if x != [] { FlatBytes(x[1..]); }
  }

  lemma ByteAt(x: seq<nat>, i: nat)
    requires i < |x|
    ensures |Flat(x, 8)| == 8 * |x| && Flat(x, 8)[8 * i..8 * i + 8] == BitsOf(x[i], 8)
  {
    hide BitsOf, Flat;
    assert x == x[..i] + [x[i]] + x[i + 1..];
    FlatAppend(x[..i] + [x[i]], x[i + 1..], 8);
    FlatLast(x[..i], x[i], 8);
    FlatBytes(x);
    FlatBytes(x[..i]);
  }

  // ----- the encoding and the decoding of RFC 4648, on strings of bits -----

  /** The bits in groups of g, the last one filled up with zeros. */
  function Groups(bits: seq<bool>, g: nat): seq<nat>
    requires g > 0
    decreases |bits|
  {
    if bits == [] then []
    else if |bits| <= g then [Number(bits + Zeros(g - |bits|))]
    else [Number(bits[..g])] + Groups(bits[g..], g)
  }

  /** The bits in groups of eight, without what is left over. */
  function Octets(bits: seq<bool>): seq<nat> {
    if |bits| < 8 then [] else [Number(bits[..8])] + Octets(bits[8..])
  }

  predicate Below(vals: seq<nat>, n: nat) {
    forall i :: 0 <= i < |vals| ==> vals[i] < n
  }

  lemma FlatAtLeast(vals: seq<nat>, g: nat)
    ensures vals != [] ==> |Flat(vals, g)| >= g
  {
    hide BitsOf;
  }

  lemma {:induction false} GroupsUnique(vals: seq<nat>, bits: seq<bool>, g: nat, p: nat)
    requires g > 0 && p < g && Below(vals, Pow2(g)) && Flat(vals, g) == bits + Zeros(p)
    requires bits == [] ==> p == 0
    ensures vals == Groups(bits, g)
  {
    hide Number, BitsOf, Pow2;
    if vals != [] {
      var all := bits + Zeros(p);
      assert all[..g] == BitsOf(vals[0], g);
      NumberOfBits(vals[0], g);
      if |bits| <= g {
        assert |all| < 2 * g;
        FlatAtLeast(vals[1..], g);
        assert vals == [vals[0]] && all[..g] == all;
        assert all == bits + Zeros(g - |bits|) && bits != [];
      } else {
        assert all[..g] == bits[..g] && all[g..] == bits[g..] + Zeros(p);
        assert vals == [vals[0]] + vals[1..];
        assert Flat(vals[1..], g) == all[g..];
        GroupsUnique(vals[1..], bits[g..], g, p);
      }
    }
  }

  lemma {:induction false} OctetsUnique(x: seq<nat>, rest: seq<bool>)
    requires Below(x, 256) && |rest| < 8
    ensures Octets(Flat(x, 8) + rest) == x
  {
    hide Number, BitsOf, Pow2;
    if x != [] {
      var all := Flat(x, 8) + rest;
      assert all[..8] == BitsOf(x[0], 8);
      assert all[8..] == Flat(x[1..], 8) + rest;
      SmallPowers();
      NumberOfBits(x[0], 8);
      OctetsUnique(x[1..], rest);
    }
  }

  // ----- bits out of bytes -----

  function Shl8(v: nat, k: nat): Byte { Scaled(v, k) % 256 }

  /** Keeping the low k bits, as masking with ~(0xff << k) does to a byte. */
  function LowBits(v: nat, k: nat): (r: nat)
    ensures r <= v && r < Pow2(k)
  {
    And(v, Pow2(k) - 1)
  }

  function ExtractPartialBits(value: Byte, start: nat, count: nat): nat
    requires start + count < 8
  {
    LowBits(Halved(value, 8 - count - start), count)
  }

  function ExtractOverlappingBits(previous: Byte, next: Byte, start: nat, count: nat): nat
    requires start < 8 <= start + count < 16
  {
    var inNext := count - (8 - start);
    var t1 := Shl8(previous, inNext);
    var t2 := LowBits(Halved(next, 8 - inNext), inNext);
    LowBits(Or(t1, t2), count)
  }

  lemma BitLow(v: nat, k: nat, i: nat)
    ensures Bit(LowBits(v, k), i) <==> i < k && Bit(v, i)
  {
    hide Bit, And, Pow2;
    BitAnd(v, Pow2(k) - 1, i);
    BitMask(k, i);
  }

  lemma BitShl8(v: nat, k: nat, i: nat)
    ensures Bit(Shl8(v, k), i) <==> k <= i < 8 && Bit(v, i - k)
  {
    hide Bit, Scaled, Pow2;
    var q := Scaled(v, k) / 256;
    SmallPowers();
    assert Scaled(q, 8) == 256 * q by { ScaledEight(q); }
    BitParts(q, Shl8(v, k), 8, i);
    BitScaled(v, k, i);
    if i >= 8 { BitsAbove(Shl8(v, k), 8, i); }
  }

  lemma ScaledEight(v: nat)
    ensures Scaled(v, 8) == 256 * v
  {
    hide Scaled;
    ScaledNone(v);
    ScaledFour(v, 0);
    ScaledFour(v, 4);
  }

  lemma PartialBits(value: Byte, start: nat, g: nat)
    requires start + g < 8
    ensures BitsOf(ExtractPartialBits(value, start, g), g) == BitsOf(value, 8)[start..start + g]
    ensures ExtractPartialBits(value, start, g) < Pow2(g)
  {
    hide Bit, LowBits, Halved, Pow2;
    var r, k := ExtractPartialBits(value, start, g), 8 - g - start;
    var cut := BitsOf(value, 8)[start..start + g];
    forall j | 0 <= j < g ensures BitsOf(r, g)[j] == cut[j] {
      BitLow(Halved(value, k), g, g - 1 - j);
      BitHalved(value, k, g - 1 - j);
    }
  }

  lemma OverlappingBits(previous: Byte, next: Byte, start: nat, g: nat)
    requires start < 8 <= start + g && g <= 8
    ensures BitsOf(ExtractOverlappingBits(previous, next, start, g), g)
            == (BitsOf(previous, 8) + BitsOf(next, 8))[start..start + g]
    ensures ExtractOverlappingBits(previous, next, start, g) < Pow2(g)
  {
    hide Bit, LowBits, Halved, Pow2, Shl8, Or;
    var r, k := ExtractOverlappingBits(previous, next, start, g), g - (8 - start);
    var t1, t2 := Shl8(previous, k), LowBits(Halved(next, 8 - k), k);
    var cut := (BitsOf(previous, 8) + BitsOf(next, 8))[start..start + g];
    forall j | 0 <= j < g ensures BitsOf(r, g)[j] == cut[j] {
      var i := g - 1 - j;
      BitLow(Or(t1, t2), g, i);
      BitOr(t1, t2, i);
      BitShl8(previous, k, i);
      BitLow(Halved(next, 8 - k), k, i);
      BitHalved(next, 8 - k, i);
    }
  }

  // ----- encoding -----

  lemma SizeIsPower(t: Traits)
    ensures Pow2(t.GroupLength()) == t.Size()
  {
    hide Pow2;
    SmallPowers();
  }

  lemma {:induction false} GroupsBelow(bits: seq<bool>, g: nat)
    requires g > 0
    ensures Below(Groups(bits, g), Pow2(g))
    decreases |bits|
  {
    hide Number, Pow2;
    if |bits| > g { GroupsBelow(bits[g..], g); }
  }

  function Text(t: Traits, vals: seq<nat>): string
    requires Below(vals, t.Size())
  {
    seq(|vals|, i requires 0 <= i < |vals| => t.Encode(vals[i]))
  }

  /** The characters beyond the last whole quantum. */
  function Beyond(t: Traits, n: nat): (r: nat)
    ensures r < t.Quantum()
  {
    match t case B16 => n % 2 case B32 => n % 8 case B64 => n % 4
  }

  /** The '=' that fill the last quantum. */
  function Padding(t: Traits, n: nat): nat {
    if Beyond(t, n) == 0 then 0 else t.Quantum() - Beyond(t, n)
  }

  /** The groups of the bits in the alphabet, then '=' up to a whole number of quanta. */
  function Encoded(t: Traits, x: seq<Byte>): string {
    var vals := Groups(Flat(x, 8), t.GroupLength());
    GroupsBelow(Flat(x, 8), t.GroupLength());
    SizeIsPower(t);
    Text(t, vals) + seq(Padding(t, |vals|), _ => '=')
  }

  /** The bit of the current byte at which group n starts. */
  function StartAfter(t: Traits, n: nat): (s: nat)
    ensures s < 8
  {
    if n == 0 then 0 else (StartAfter(t, n - 1) + t.GroupLength()) % 8
  }

  lemma {:induction false} Start16(n: nat)
    ensures StartAfter(B16, n) == [0, 4][n % 2]
  {
    if n > 0 { Start16(n - 1); }
  }

  lemma {:induction false} Start32(n: nat)
    ensures StartAfter(B32, n) == [0, 5, 2, 7, 4, 1, 6, 3][n % 8]
  {
    if n > 0 { Start32(n - 1); }
  }

  lemma {:induction false} Start64(n: nat)
    ensures StartAfter(B64, n) == [0, 6, 4, 2][n % 4]
  {
    if n > 0 { Start64(n - 1); }
  }

  /** A group starts on a byte boundary exactly after a whole number of quanta. */
  lemma StartIsZeroIff(t: Traits, n: nat)
    ensures StartAfter(t, n) == 0 <==> Beyond(t, n) == 0
  {
    hide StartAfter;
    match t
    case B16 => Start16(n);
    case B32 => Start32(n);
    case B64 => Start64(n);
  }

  ghost function Stream(x: seq<nat>): (b: seq<bool>)
    ensures |b| == 8 * |x| + 8
  {
    FlatBytes(x);
    Flat(x, 8) + Zeros(8)
  }

  lemma StreamAt(x: seq<nat>, i: nat)
    requires i <= |x|
    ensures Stream(x)[8 * i..8 * i + 8] == BitsOf(if i < |x| then x[i] else 0, 8)
  {
    hide BitsOf, Flat;
    FlatBytes(x);
    if i < |x| {
      ByteAt(x, i);
    } else {
      NoBits();
    }
  }

  lemma NoBits()
    ensures BitsOf(0, 8) == Zeros(8)
  {
    forall j | 0 <= j < 8 ensures !BitsOf(0, 8)[j] {
      BitZero(7 - j);
    }
  }

  /** The groups written so far are the bits read so far. */
  ghost predicate Encoding(t: Traits, x: seq<nat>, vals: seq<nat>, i: nat, start: nat, backlog: bool) {
    && i <= |x| && (backlog ==> i > 0) && start < 8 && start == StartAfter(t, |vals|)
    && Below(vals, t.Size())
    && Flat(vals, t.GroupLength()) == Stream(x)[..8 * (if backlog then i - 1 else i) + start]
    && (if backlog then start + t.GroupLength() >= 8 else i == |x| ==> start < t.GroupLength())
    && (x == [] ==> start == 0)
  }

  lemma Slices(bits: seq<bool>, a: nat, b: nat, s: nat, e: nat)
    requires a + b <= |bits| && s <= e <= b
    ensures bits[a..a + b][s..e] == bits[a + s..a + e]
  {
    var inner, outer := bits[a..a + b][s..e], bits[a + s..a + e];
    assert |inner| == |outer| == e - s;
    forall j | 0 <= j < e - s ensures inner[j] == outer[j] {
      assert inner[j] == bits[a..a + b][s + j];
    }
  }

  lemma Halves(bits: seq<bool>, c: nat)
    requires c + 16 <= |bits|
    ensures bits[c..c + 16] == bits[c..c + 8] + bits[c + 8..c + 16]
  {
    var whole, parts := bits[c..c + 16], bits[c..c + 8] + bits[c + 8..c + 16];
    assert |whole| == |parts| == 16;
    forall j | 0 <= j < 16 ensures whole[j] == parts[j] {
    }
  }

  lemma AppendGroup(bits: seq<bool>, vals: seq<nat>, v: nat, g: nat, c: nat)
    requires c + g <= |bits| && Flat(vals, g) == bits[..c] && BitsOf(v, g) == bits[c..c + g]
    ensures Flat(vals + [v], g) == bits[..c + g]
  {
    hide BitsOf, Flat;
    FlatLast(vals, v, g);
    assert bits[..c] + bits[c..c + g] == bits[..c + g];
  }

  lemma EncodePartial(t: Traits, x: seq<Byte>, vals: seq<nat>, i: nat, start: nat)
    requires Encoding(t, x, vals, i, start, false) && i < |x| && start + t.GroupLength() < 8
    ensures var v := ExtractPartialBits(x[i], start, t.GroupLength());
      v < t.Size() && Encoding(t, x, vals + [v], i, start + t.GroupLength(), false)
  {
    hide BitsOf, Flat, Stream, ExtractPartialBits, Pow2;
    var g := t.GroupLength();
    var v, bits := ExtractPartialBits(x[i], start, g), Stream(x);
    PartialBits(x[i], start, g);
    StreamAt(x, i);
    Slices(bits, 8 * i, 8, start, start + g);
    AppendGroup(bits, vals, v, g, 8 * i + start);
    SizeIsPower(t);
  }

  lemma EncodeBacklog(t: Traits, x: seq<Byte>, vals: seq<nat>, i: nat, start: nat)
    requires Encoding(t, x, vals, i, start, false) && i < |x| && start + t.GroupLength() >= 8
    ensures Encoding(t, x, vals, i + 1, start, true)
  {
    hide BitsOf, Flat, Stream;
  }

  lemma EncodeOverlapping(t: Traits, x: seq<Byte>, vals: seq<nat>, i: nat, start: nat)
    requires Encoding(t, x, vals, i, start, true)
    ensures var next := if i == |x| then 0 else x[i];
      var v := ExtractOverlappingBits(x[i - 1], next, start, t.GroupLength());
      v < t.Size() && Encoding(t, x, vals + [v], i, (start + t.GroupLength()) % 8, false)
  {
    hide BitsOf, Flat, Stream, ExtractOverlappingBits, Pow2;
    var g, next, bits, c := t.GroupLength(), if i == |x| then 0 else x[i], Stream(x), 8 * (i - 1);
    var v := ExtractOverlappingBits(x[i - 1], next, start, g);
    OverlappingBits(x[i - 1], next, start, g);
    StreamAt(x, i - 1);
    StreamAt(x, i);
    Halves(bits, c);
    Slices(bits, c, 16, start, start + g);
    AppendGroup(bits, vals, v, g, c + start);
    SizeIsPower(t);
  }

  lemma EncodingDone(t: Traits, x: seq<Byte>, vals: seq<nat>, start: nat)
    requires Encoding(t, x, vals, |x|, start, false)
    ensures vals == Groups(Flat(x, 8), t.GroupLength()) && start == StartAfter(t, |vals|)
  {
    hide BitsOf, Flat, Pow2, Groups;
    FlatBytes(x);
    SizeIsPower(t);
    assert Stream(x)[..8 * |x| + start] == Flat(x, 8) + Zeros(start);
    GroupsUnique(vals, Flat(x, 8), t.GroupLength(), start);
  }

  lemma TextLast(t: Traits, vals: seq<nat>, v: nat)
    requires Below(vals, t.Size()) && v < t.Size()
    ensures Text(t, vals + [v]) == Text(t, vals) + [t.Encode(v)]
  {
    hide Traits.Encode;
  }

  /** The groups of the whole input as text, and the bit at which the next group would start. */
  method EncodeGroups(t: Traits, x: seq<Byte>) returns (out: string, start: nat, ghost vals: seq<nat>)
    ensures vals == Groups(Flat(x, 8), t.GroupLength()) && start == StartAfter(t, |vals|)
    ensures Below(vals, t.Size()) && out == Text(t, vals)
  {
    hide Encoding, ExtractPartialBits, ExtractOverlappingBits, Groups, Flat, Text, StartAfter, Traits.Encode, Traits.Alphabet;
    var i, hasBacklog, g := 0, false, t.GroupLength();
    var backlog: Byte := 0;
    out, start, vals := [], 0, [];
    EncodingStarts(t, x);
    while hasBacklog || i != |x|
      invariant Encoding(t, x, vals, i, start, hasBacklog) && Below(vals, t.Size())
      invariant i <= |x| && start < 8 && (hasBacklog ==> i > 0 && backlog == x[i - 1] && start + g >= 8)
      invariant out == Text(t, vals)
      decreases |x| - i, if hasBacklog then 1 else 0, 8 - start
    {
      if !hasBacklog {
        if start + g < 8 {
          EncodePartial(t, x, vals, i, start);
          var v := ExtractPartialBits(x[i], start, g);
          TextLast(t, vals, v);
          vals := vals + [v];
          out := out + [t.Encode(v)];
          start := start + g;
        } else {
          EncodeBacklog(t, x, vals, i, start);
          backlog := x[i];
          i := i + 1;
          hasBacklog := true;
        }
      } else {
        EncodeOverlapping(t, x, vals, i, start);
        var v := ExtractOverlappingBits(backlog, if i == |x| then 0 else x[i], start, g);
        TextLast(t, vals, v);
        vals := vals + [v];
        out := out + [t.Encode(v)];
        hasBacklog := false;
        start := (start + g) % 8;
      }
    }
    EncodingDone(t, x, vals, start);
  }

  method Encode(t: Traits, x: seq<Byte>) returns (out: string)
    ensures out == Encoded(t, x)
  {
    hide Groups, Flat, Text, StartAfter, Padding, Traits.Alphabet;
    var start;
    ghost var vals;
    out, start, vals := EncodeGroups(t, x);
    ghost var text, n := out, 0;
    while start != 0
      invariant start == StartAfter(t, |vals| + n) && n <= Padding(t, |vals|)
      invariant out == text + seq(n, _ => '=')
      decreases Padding(t, |vals|) - n
    {
      OnePadMore(t, |vals|, n);
      out := out + "=";
      n := n + 1;
      start := (start + t.GroupLength()) % 8;
    }
    PaddedExactly(t, |vals|, n);
  }

  lemma BeyondAfter(t: Traits, v: nat, n: nat)
    requires n <= Padding(t, v)
    ensures Beyond(t, v + n) == 0 <==> n == Padding(t, v)
  {
    match t
    case B16 => Mod2(v, n);
    case B32 => Mod8(v, n);
    case B64 => Mod4(v, n);
  }

  lemma Mod2(v: nat, n: nat)
    requires v % 2 + n <= 2
    ensures (v + n) % 2 == if v % 2 + n == 2 then 0 else v % 2 + n
  {
  }

  lemma Mod4(v: nat, n: nat)
    requires v % 4 + n <= 4
    ensures (v + n) % 4 == if v % 4 + n == 4 then 0 else v % 4 + n
  {
  }

  lemma Mod8(v: nat, n: nat)
    requires v % 8 + n <= 8
    ensures (v + n) % 8 == if v % 8 + n == 8 then 0 else v % 8 + n
  {
  }

  lemma OnePadMore(t: Traits, v: nat, n: nat)
    requires StartAfter(t, v + n) != 0 && n <= Padding(t, v)
    ensures n < Padding(t, v) && StartAfter(t, v + n + 1) == (StartAfter(t, v + n) + t.GroupLength()) % 8
  {
    hide Padding, Beyond;
    BeyondAfter(t, v, n);
    StartIsZeroIff(t, v + n);
  }

  lemma PaddedExactly(t: Traits, v: nat, n: nat)
    requires StartAfter(t, v + n) == 0 && n <= Padding(t, v)
    ensures n == Padding(t, v)
  {
    hide Padding, Beyond, StartAfter;
    BeyondAfter(t, v, n);
    StartIsZeroIff(t, v + n);
  }

  lemma EncodingStarts(t: Traits, x: seq<Byte>)
    ensures Encoding(t, x, [], 0, 0, false) && Text(t, []) == []
  {
  }
}
