/** SipHash-2-4 fed in pieces of any size. */
module SipHash {
  import opened Bits
  import opened UInt128
  import opened BitAccess

  type Byte = x: nat | x < 256

  datatype Lanes = Lanes(v0: Word, v1: Word, v2: Word, v3: Word)

  function WordXor(x: Word, y: Word): Word {
    Pow2Word();
    XorFits(x, y, 64);
    Xor(x, y)
  }

  // ----- the hash of a whole message, as section 2 of the SipHash paper defines it -----

  function RotateLeft(x: Word, b: nat): Word
    requires b <= 64
  {
    WordOr(WordShl(x, b), WordShr(x, 64 - b))
  }

  /** Bits leave at the top and come in at the bottom. */
  lemma RotateMovesBits(x: Word, b: nat, i: nat)
    requires 0 < b < 64 && i < 64
    ensures Bit(RotateLeft(x, b), i) <==> Bit(x, if i >= b then i - b else i + 64 - b)
  {
    hide Bit, WordShl, WordShr;
    BitOr(WordShl(x, b), WordShr(x, 64 - b), i);
    BitWordShl(x, b, i);
    BitWordShr(x, 64 - b, i);
  }

  function Compress(v: Lanes): Lanes {
    var v0 := WordAdd(v.v0, v.v1);
    var v1 := WordXor(RotateLeft(v.v1, 13), v0);
    var v2 := WordAdd(v.v2, v.v3);
    var v3 := WordXor(RotateLeft(v.v3, 16), v2);
    var w0 := WordAdd(RotateLeft(v0, 32), v3);
    var w2 := WordAdd(v2, v1);
    Lanes(w0, WordXor(RotateLeft(v1, 17), w2), RotateLeft(w2, 32), WordXor(RotateLeft(v3, 21), w0))
  }

  function Block(v: Lanes, m: Word): Lanes {
    var w := Compress(Compress(v.(v3 := WordXor(v.v3, m))));
    w.(v0 := WordXor(w.v0, m))
  }

  /** Up to eight bytes as a little-endian word. */
  function Pack(t: seq<Byte>): (w: Word)
    requires |t| <= 8
    ensures w < Pow2(8 * |t|)
  {
    if t == [] then 0 else
      PackFits(Pack(t[..|t| - 1]), t[|t| - 1], |t| - 1);
      Pack(t[..|t| - 1]) + Scaled(t[|t| - 1], 8 * (|t| - 1))
  }

  lemma PackFits(w: nat, b: Byte, i: nat)
    requires i < 8 && w < Pow2(8 * i)
    ensures w + Scaled(b, 8 * i) < Pow2(8 * i + 8) <= W
  {
    hide Scaled, Pow2;
    ScaledMonotone(b + 1, 256, 8 * i);
    ScaledSum(b, 1, 8 * i);
    SmallPowers();
    PowZero();
    Pow2Sum(0, 8 * i);
    Pow2Sum(8, 8 * i);
    Pow2Word();
    if 8 * i + 8 < 64 { Pow2Monotone(8 * i + 8, 64); }
  }

  /** The lanes after the first n whole words of the message. */
  function Blocks(v: Lanes, msg: seq<Byte>, n: nat): Lanes
    requires 8 * n <= |msg|
  {
    if n == 0 then v else Block(Blocks(v, msg, n - 1), Pack(msg[8 * (n - 1)..8 * n]))
  }

  /** The bytes after the last whole word. */
  function Tail(msg: seq<Byte>): (t: seq<Byte>)
    ensures |t| == |msg| % 8
  {
    msg[8 * (|msg| / 8)..]
  }

  function Finish(v: Lanes): Word {
    var w := Compress(Compress(Compress(Compress(v.(v2 := WordXor(v.v2, 0xff))))));
    WordXor(WordXor(WordXor(w.v0, w.v1), w.v2), w.v3)
  }

  function Seed(key: seq<Byte>): Lanes
    requires |key| == 16
  {
    var k0, k1 := Pack(key[..8]), Pack(key[8..]);
    Lanes(WordXor(0x736f6d6570736575, k0), WordXor(0x646f72616e646f6d, k1),
          WordXor(0x6c7967656e657261, k0), WordXor(0x7465646279746573, k1))
  }

  /** The last word: the tail, then zero bytes, then the length modulo 256. */
  function LastWord(msg: seq<Byte>): Word {
    var t := Tail(msg);
    Pack(t + seq(7 - |t|, _ => 0) + [|msg| % 256])
  }

  function Hash(v: Lanes, msg: seq<Byte>): Word {
    Finish(Block(Blocks(v, msg, |msg| / 8), LastWord(msg)))
  }

  // ----- bytes of a word -----

  lemma {:induction false} OrDisjoint(a: nat, b: nat, k: nat)
    requires a < Pow2(k)
    ensures Or(a, Scaled(b, k)) == a + Scaled(b, k)
  {
    if k > 0 {
      OrDisjoint(a / 2, b, k - 1);
      assert Scaled(b, k) / 2 == Scaled(b, k - 1);
    }
  }

  lemma {:induction false} AndDisjoint(a: nat, b: nat, k: nat)
    requires a < Pow2(k)
    ensures And(a, Scaled(b, k)) == 0
  {
    if k > 0 {
      AndDisjoint(a / 2, b, k - 1);
      assert Scaled(b, k) / 2 == Scaled(b, k - 1);
    }
  }

  lemma PlacedIs(b: Byte, i: nat)
    requires i < 8
    ensures WordShl(b, 8 * i) == Scaled(b, 8 * i)
  {
    hide Scaled, Pow2;
    PackFits(0, b, i);
  }

  /** One byte more, by a shift and an or. */
  lemma PackLast(t: seq<Byte>, b: Byte)
    requires |t| < 8
    ensures WordOr(Pack(t), WordShl(b, 8 * |t|)) == Pack(t + [b])
  {
    hide Or, WordShl, Scaled;
    assert (t + [b])[..|t|] == t;
    PlacedIs(b, |t|);
    OrDisjoint(Pack(t), b, 8 * |t|);
  }

  function LoadLe64(p: seq<Byte>): Word
    requires |p| == 8
  {
    WordOr(WordOr(WordOr(WordOr(WordOr(WordOr(WordOr(
      p[0], WordShl(p[1], 8)), WordShl(p[2], 16)), WordShl(p[3], 24)),
      WordShl(p[4], 32)), WordShl(p[5], 40)), WordShl(p[6], 48)), WordShl(p[7], 56))
  }

  lemma LoadPacks(p: seq<Byte>)
    requires |p| == 8
    ensures LoadLe64(p) == Pack(p)
  {
    hide Pack, WordOr, WordShl, Pow2;
    PackOne(p[0]);
    assert p[..1] == [p[0]] && p[..8] == p;
    PackNext(p, 1);
    PackNext(p, 2);
    PackNext(p, 3);
    PackNext(p, 4);
    PackNext(p, 5);
    PackNext(p, 6);
    PackNext(p, 7);
  }

  lemma PackNext(p: seq<Byte>, k: nat)
    requires k < |p| <= 8
    ensures Pack(p[..k + 1]) == WordOr(Pack(p[..k]), WordShl(p[k], 8 * k))
  {
    hide Pack, WordOr, WordShl, Pow2;
    PackLast(p[..k], p[k]);
    assert p[..k] + [p[k]] == p[..k + 1];
  }

  lemma PackOne(b: Byte)
    ensures Pack([b]) == b
  {
    assert Pack([b]) == Pack([b][..0]) + Scaled(b, 0);
  }

  /** The places from k on are zero in a word of k bytes. */
  lemma AboveIsZero(t: seq<Byte>, k: nat)
    requires |t| <= k < 8
    ensures And(Pack(t), Scaled(0xff, 8 * k)) == 0
  {
    hide Pack, And, Scaled, Pow2;
    PowAtMost(8 * |t|, 8 * k);
    AndDisjoint(Pack(t), 0xff, 8 * k);
  }

  lemma NextMask(k: nat)
    requires k < 7
    ensures WordShl(0xff, 8 * k) == Scaled(0xff, 8 * k) && Scaled(0xff, 8 * k) < W
    ensures WordShl(Scaled(0xff, 8 * k), 8) == Scaled(0xff, 8 * (k + 1))
  {
    hide Scaled, Pow2;
    PackFits(0, 0xff, k);
    PackFits(0, 0xff, k + 1);
    ScaledTwice(0xff, 8 * k, 8);
  }

  lemma {:induction false} ZerosAddNothing(t: seq<Byte>, k: nat)
    requires |t| + k <= 8
    ensures Pack(t + seq(k, _ => 0)) == Pack(t)
  {
    hide Scaled, Pow2;
    if k == 0 {
      assert t + seq(k, _ => 0) == t;
    } else {
      var t' := t + seq(k - 1, _ => 0);
      ZerosAddNothing(t, k - 1);
      assert t + seq(k, _ => 0) == t' + [0];
      assert (t' + [0])[..|t'|] == t';
      ScaledZero(8 * |t'|);
    }
  }

  lemma LastWordIs(msg: seq<Byte>)
    ensures LastWord(msg) == WordOr(Pack(Tail(msg)), WordShl(|msg| % 256, 56))
  {
    hide Pack, WordOr, WordShl, Pow2;
    var t := Tail(msg);
    ZerosAddNothing(t, 7 - |t|);
    PackLast(t + seq(7 - |t|, _ => 0), |msg| % 256);
  }

  // ----- feeding in pieces -----

  lemma {:induction false} BlocksPrefix(v: Lanes, msg: seq<Byte>, more: seq<Byte>, n: nat)
    requires 8 * n <= |msg|
    ensures Blocks(v, msg + more, n) == Blocks(v, msg, n)
  {
    hide Block, Pack;
    if n > 0 {
      BlocksPrefix(v, msg, more, n - 1);
      assert (msg + more)[8 * (n - 1)..8 * n] == msg[8 * (n - 1)..8 * n];
    }
  }

  /** What the hasher holds after a message. */
  datatype State = State(lanes: Lanes, m: Word, mIdx: nat, inputLen: nat)

  ghost function Fed(seed: Lanes, msg: seq<Byte>): State {
    State(Blocks(seed, msg, |msg| / 8), Pack(Tail(msg)), |msg| % 8, |msg| % 256)
  }

  lemma FedNothing(seed: Lanes)
    ensures Fed(seed, []) == State(seed, 0, 0, 0)
  {
    assert Tail([]) == [];
  }

  lemma FedIs(seed: Lanes, msg: seq<Byte>, n: nat, t: seq<Byte>)
    requires 8 * n <= |msg| && msg[8 * n..] == t && |t| < 8
    ensures Fed(seed, msg) == State(Blocks(seed, msg, n), Pack(t), |t|, |msg| % 256)
  {
    hide Blocks, Pack;
    assert |msg| / 8 == n;
  }

  lemma NextLength(x: nat, k: nat)
    ensures (x + k) % 256 == (x % 256 + k) % 256
  {
  }

  /** One byte more, in the middle of a word. */
  lemma FeedInside(seed: Lanes, msg: seq<Byte>, b: Byte)
    requires |msg| % 8 < 7
    ensures var s := Fed(seed, msg);
      Fed(seed, msg + [b]) == State(s.lanes, WordOr(s.m, WordShl(b, 8 * s.mIdx)), s.mIdx + 1, (s.inputLen + 1) % 256)
  {
    hide Fed, Blocks, Pack, WordOr, WordShl, Pow2;
    var n, t := |msg| / 8, Tail(msg);
    FedIs(seed, msg, n, t);
    assert (msg + [b])[8 * n..] == t + [b];
    FedIs(seed, msg + [b], n, t + [b]);
    BlocksPrefix(seed, msg, [b], n);
    PackLast(t, b);
    NextLength(|msg|, 1);
  }

  /** One byte more, completing a word. */
  lemma FeedCompletes(seed: Lanes, msg: seq<Byte>, b: Byte)
    requires |msg| % 8 == 7
    ensures var s := Fed(seed, msg);
      Fed(seed, msg + [b]) == State(Block(s.lanes, WordOr(s.m, WordShl(b, 8 * s.mIdx))), 0, 0, (s.inputLen + 1) % 256)
  {
    hide Fed, Blocks, Pack, WordOr, WordShl, Pow2, Block;
    var n, t := |msg| / 8, Tail(msg);
    FedIs(seed, msg, n, t);
    assert (msg + [b])[8 * n + 8..] == [];
    FedIs(seed, msg + [b], n + 1, []);
    BlocksPrefix(seed, msg, [b], n);
    assert (msg + [b])[8 * n..8 * n + 8] == t + [b];
    BlocksNext(seed, msg + [b], n, t + [b]);
    PackLast(t, b);
    PackNone();
    NextLength(|msg|, 1);
  }

  lemma PackNone()
    ensures Pack([]) == 0
  {
  }

  lemma BlocksNext(v: Lanes, msg: seq<Byte>, n: nat, w: seq<Byte>)
    requires 8 * n + 8 <= |msg| && w == msg[8 * n..8 * n + 8]
    ensures Blocks(v, msg, n + 1) == Block(Blocks(v, msg, n), Pack(w))
  {
  }

  /** Eight bytes more on a word boundary. */
  lemma FeedWord(seed: Lanes, msg: seq<Byte>, w: seq<Byte>)
    requires |msg| % 8 == 0 && |w| == 8
    ensures var s := Fed(seed, msg);
      Fed(seed, msg + w) == State(Block(s.lanes, LoadLe64(w)), 0, 0, (s.inputLen + 8) % 256)
  {
    hide Fed, Blocks, Pack, LoadLe64, Pow2, Block;
    var n := |msg| / 8;
    assert msg[8 * n..] == [] && (msg + w)[8 * n + 8..] == [];
    FedIs(seed, msg, n, []);
    FedIs(seed, msg + w, n + 1, []);
    BlocksPrefix(seed, msg, w, n);
    assert (msg + w)[8 * n..8 * n + 8] == w;
    BlocksNext(seed, msg + w, n, w);
    LoadPacks(w);
    PackNone();
    NextLength(|msg|, 8);
  }

  class SipHash24 {
    var lanes: Lanes
    var m: Word
    var mIdx: nat
    var inputLen: nat
    ghost var seed: Lanes
    ghost var input: seq<Byte>

    /** The state depends on the whole input and not on how it was cut. */
    ghost predicate Valid()
      reads this
    {
      State(lanes, m, mIdx, inputLen) == Fed(seed, input)
    }

    constructor (key: seq<Byte>)
      requires |key| == 16
      ensures Valid() && seed == Seed(key) && input == []
    {
      hide LoadLe64, WordXor, Pow2, Fed, Pack;
      LoadPacks(key[..8]);
      LoadPacks(key[8..]);
      FedNothing(Seed(key));
      var k0, k1 := LoadLe64(key[..8]), LoadLe64(key[8..]);
      lanes := Lanes(WordXor(0x736f6d6570736575, k0), WordXor(0x646f72616e646f6d, k1),
                     WordXor(0x6c7967656e657261, k0), WordXor(0x7465646279746573, k1));
      mIdx := 0;
      inputLen := 0;
      m := 0;
      seed := Seed(key);
      input := [];
    }

    /** One round, lane by lane. */
    method Round()
      modifies this
      ensures lanes == Compress(old(lanes))
      ensures m == old(m) && mIdx == old(mIdx) && inputLen == old(inputLen) && seed == old(seed) && input == old(input)
    {
      hide WordAdd, WordXor, RotateLeft;
      var v0, v1, v2, v3 := lanes.v0, lanes.v1, lanes.v2, lanes.v3;
      v0 := WordAdd(v0, v1);
      v1 := RotateLeft(v1, 13);
      v1 := WordXor(v1, v0);
      v0 := RotateLeft(v0, 32);
      v2 := WordAdd(v2, v3);
      v3 := RotateLeft(v3, 16);
      v3 := WordXor(v3, v2);
      v0 := WordAdd(v0, v3);
      v3 := RotateLeft(v3, 21);
      v3 := WordXor(v3, v0);
      v2 := WordAdd(v2, v1);
      v1 := RotateLeft(v1, 17);
      v1 := WordXor(v1, v2);
      v2 := RotateLeft(v2, 32);
      lanes := Lanes(v0, v1, v2, v3);
    }

    method DigestBlock()
      modifies this
      ensures lanes == Block(old(lanes), old(m)) && mIdx == 0 && m == 0
      ensures inputLen == old(inputLen) && seed == old(seed) && input == old(input)
    {
      hide Compress, WordXor;
      lanes := lanes.(v3 := WordXor(lanes.v3, m));
      Round();
      Round();
      lanes := lanes.(v0 := WordXor(lanes.v0, m));
      mIdx := 0;
      m := 0;
    }

    /** Whole words at a time while the input so far is a whole number of words, then bytes. */
    method Update(data: seq<Byte>)
      requires Valid()
      modifies this
      ensures Valid() && seed == old(seed) && input == old(input) + data
    {
      hide Fed;
      FedIndex(seed, input);
      if mIdx == 0 {
        var end8 := |data| - |data| % 8;
        UpdateWords(data[..end8]);
        UpdateBytes(data[end8..]);
        Rejoined(old(input), data, end8);
      } else {
        UpdateBytes(data);
      }
    }

    method UpdateWords(data: seq<Byte>)
      requires Valid() && |input| % 8 == 0 && |data| % 8 == 0
      modifies this
      ensures Valid() && seed == old(seed) && input == old(input) + data
    {
      hide Block, LoadLe64, Fed;
      var i := 0;
      while i != |data|
        invariant i <= |data| && i % 8 == 0 && |input| % 8 == 0
        invariant Valid() && seed == old(seed) && input == old(input) + data[..i]
        decreases |data| - i
      {
        FeedWord(seed, input, data[i..i + 8]);
        inputLen := (inputLen + 8) % 256;
        m := LoadLe64(data[i..i + 8]);
        DigestBlock();
        input := input + data[i..i + 8];
        assert data[..i + 8] == data[..i] + data[i..i + 8];
        i := i + 8;
      }
    }

    method UpdateBytes(data: seq<Byte>)
      requires Valid()
      modifies this
      ensures Valid() && seed == old(seed) && input == old(input) + data
    {
      hide Block, WordOr, WordShl, Fed;
      var i := 0;
      while i != |data|
        invariant i <= |data|
        invariant Valid() && seed == old(seed) && input == old(input) + data[..i]
        decreases |data| - i
      {
        FedIndex(seed, input);
        if mIdx < 7 { FeedInside(seed, input, data[i]); } else { FeedCompletes(seed, input, data[i]); }
        inputLen := (inputLen + 1) % 256;
        m := WordOr(m, WordShl(data[i], 8 * mIdx));
        mIdx := mIdx + 1;
        if mIdx >= 8 {
          DigestBlock();
        }
        input := input + [data[i]];
        assert data[..i + 1] == data[..i] + [data[i]];
        i := i + 1;
      }
    }

    /** The source's assertions that the places above the tail are zero stand here as assertions. */
    method Digest() returns (hash: Word)
      requires Valid()
      modifies this
      ensures hash == Hash(seed, old(input)) && seed == old(seed)
    {
      hide Block, Compress, Pack, Blocks, WordOr, WordShl, WordXor, And, Pow2, Scaled, LastWord;
      ghost var tail := Tail(input);
      var mask: Word := 0xff;
      PlacedIs(0xff, mIdx);
      mask := WordShl(mask, 8 * mIdx);
      while mIdx < 7
        invariant |tail| <= mIdx <= 7 && mask == Scaled(0xff, 8 * mIdx)
        invariant m == old(m) && lanes == old(lanes) && inputLen == old(inputLen) && seed == old(seed)
      {
        AboveIsZero(tail, mIdx);
        assert And(m, mask) == 0;
        NextMask(mIdx);
        mask := WordShl(mask, 8);
        mIdx := mIdx + 1;
      }
      AboveIsZero(tail, 7);
      assert And(m, mask) == 0 && mIdx == 7;
      m := WordOr(m, WordShl(inputLen, 8 * mIdx));
      LastWordIs(old(input));
      DigestBlock();
      lanes := lanes.(v2 := WordXor(lanes.v2, 0xff));
      Round();
      Round();
      Round();
      Round();
      hash := WordXor(WordXor(WordXor(lanes.v0, lanes.v1), lanes.v2), lanes.v3);
    }
  }

  lemma Rejoined(before: seq<Byte>, data: seq<Byte>, n: nat)
    requires n <= |data|
    ensures before + data[..n] + data[n..] == before + data
  {
  }

  lemma FedIndex(seed: Lanes, msg: seq<Byte>)
    ensures Fed(seed, msg).mIdx == |msg| % 8 && Fed(seed, msg).inputLen == |msg| % 256
  {
  }

  function Joined(pieces: seq<seq<Byte>>): seq<Byte> {
    if pieces == [] then [] else Joined(pieces[..|pieces| - 1]) + pieces[|pieces| - 1]
  }

  /** However a message is cut into updates, its hash is the hash of the whole. */
  method HashPieces(key: seq<Byte>, pieces: seq<seq<Byte>>) returns (hash: Word)
    requires |key| == 16
    ensures hash == Hash(Seed(key), Joined(pieces))
  {
    hide Hash, Seed, Fed;
    var h := new SipHash24(key);
    for i := 0 to |pieces|
      invariant h.Valid() && h.seed == Seed(key) && h.input == Joined(pieces[..i])
    {
      h.Update(pieces[i]);
      assert pieces[..i + 1][..i] == pieces[..i];
    }
    assert pieces[..|pieces|] == pieces;
    hash := h.Digest();
  }
}
