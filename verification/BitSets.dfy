/** Sets of naturals as vectors of 64-bit words, updated in place. */
module BitSets {
  import opened Bits
  import opened UInt128
  import opened BitAccess

  // ----- words, and the set they stand for -----

  predicate Member(ws: seq<Word>, x: nat) {
    x / 64 < |ws| && Bit(ws[x / 64], x % 64)
  }

  function WordAt(ws: seq<Word>, i: int): Word {
    if 0 <= i < |ws| then ws[i] else 0
  }

  /** The words of the set moved up by 64 e + k. */
  function ShlWords(ws: seq<Word>, e: nat, k: nat): seq<Word>
    requires k < 64
  {
    seq(|ws| + e + (if k == 0 then 0 else 1), i requires i >= 0 => ShlWord(ws, e, k, i))
  }

  function ShlWord(ws: seq<Word>, e: nat, k: nat, i: nat): Word
    requires k < 64
  {
    WordOr(WordShl(WordAt(ws, i - e), k), WordShr(WordAt(ws, i - e - 1), 64 - k))
  }

  /** The words of the set moved down by 64 e + k. */
  function ShrWords(ws: seq<Word>, e: nat, k: nat): seq<Word>
    requires k < 64 && e <= |ws|
  {
    seq(|ws| - e, i requires i >= 0 => ShrWord(ws, e, k, i))
  }

  function ShrWord(ws: seq<Word>, e: nat, k: nat, i: nat): Word
    requires k < 64
  {
    WordOr(WordShr(WordAt(ws, i + e), k), WordShl(WordAt(ws, i + e + 1), 64 - k))
  }

  // ----- single bits -----

  lemma BitAt(ws: seq<Word>, j: int, i: nat)
    requires i < 64
    ensures Bit(WordAt(ws, j), i) <==> j >= 0 && Member(ws, 64 * j + i)
  {
    hide Bit;
    BitZero(i);
    if j >= 0 { assert (64 * j + i) / 64 == j && (64 * j + i) % 64 == i; }
  }

  lemma ShlBit(ws: seq<Word>, e: nat, k: nat, j: nat, i: nat)
    requires k < 64 && i < 64
    ensures Bit(ShlWord(ws, e, k, j), i) <==>
              var x := 64 * j + i - 64 * e - k; x >= 0 && Member(ws, x)
  {
    hide Bit, Member, WordShl, WordShr;
    var a, b := WordAt(ws, j - e), WordAt(ws, j - e - 1);
    BitOr(WordShl(a, k), WordShr(b, 64 - k), i);
    BitWordShl(a, k, i);
    BitWordShr(b, 64 - k, i);
    if i >= k { BitAt(ws, j - e, i - k); } else { BitAt(ws, j - e - 1, i + 64 - k); }
  }

  lemma ShrBit(ws: seq<Word>, e: nat, k: nat, j: nat, i: nat)
    requires k < 64 && i < 64
    ensures Bit(ShrWord(ws, e, k, j), i) <==> Member(ws, 64 * j + i + 64 * e + k)
  {
    hide Bit, Member, WordShl, WordShr;
    var a, b := WordAt(ws, j + e), WordAt(ws, j + e + 1);
    BitOr(WordShr(a, k), WordShl(b, 64 - k), i);
    BitWordShr(a, k, i);
    BitWordShl(b, 64 - k, i);
    if i + k < 64 { BitAt(ws, j + e, i + k); } else { BitAt(ws, j + e + 1, i + k - 64); }
  }

  lemma MemberBeyond(ws: seq<Word>, x: nat)
    requires x >= 64 * |ws|
    ensures !Member(ws, x)
  {
  }

  /** Shifting left adds s to every member. */
  lemma ShlMembers(ws: seq<Word>, s: nat, x: nat)
    ensures Member(ShlWords(ws, s / 64, s % 64), x) <==> x >= s && Member(ws, x - s)
  {
    hide Bit, ShlWord;
    var e, k, j, i := s / 64, s % 64, x / 64, x % 64;
    ShlBit(ws, e, k, j, i);
    if j >= |ShlWords(ws, e, k)| && x >= s { MemberBeyond(ws, x - s); }
  }

  /** Shifting right subtracts s from every member that is at least s. */
  lemma ShrMembers(ws: seq<Word>, s: nat, x: nat)
    requires s / 64 <= |ws|
    ensures Member(ShrWords(ws, s / 64, s % 64), x) <==> Member(ws, x + s)
  {
    hide Bit, ShrWord;
    var e, k, j, i := s / 64, s % 64, x / 64, x % 64;
    ShrBit(ws, e, k, j, i);
    if j >= |ws| - e { MemberBeyond(ws, x + s); }
  }

  /** Right after left restores the set. */
  lemma ShiftBack(ws: seq<Word>, s: nat, x: nat)
    ensures var up := ShlWords(ws, s / 64, s % 64);
      s / 64 <= |up| && (Member(ShrWords(up, s / 64, s % 64), x) <==> Member(ws, x))
  {
    hide Member;
    var up := ShlWords(ws, s / 64, s % 64);
    ShrMembers(up, s, x);
    ShlMembers(ws, s, x + s);
  }

  // ----- the least set bit -----

  /** The number of trailing zeros of a word that is not zero. */
  function Ctz(w: nat): (n: nat)
    requires w > 0
    ensures Bit(w, n) && forall i :: 0 <= i < n ==> !Bit(w, i)
  {
    if w % 2 == 1 then 0 else 1 + Ctz(w / 2)
  }

  lemma CtzBelow(w: Word)
    requires w > 0
    ensures Ctz(w) < 64
  {
    Pow2Word();
    if Ctz(w) >= 64 { BitsAbove(w, 64, Ctz(w)); }
  }

  // ----- moving words along an array -----

  /** Downwards from the top, so that no word is overwritten before it is read. */
  method MoveUp(a: array<Word>, n: nat, e: nat)
    requires n + e <= a.Length
    modifies a
    ensures forall j :: e <= j < n + e ==> a[j] == old(a[j - e])
  {
    var i := n + e;
    while i > e
      invariant e <= i <= n + e
      invariant forall j :: 0 <= j < i ==> a[j] == old(a[j])
      invariant forall j :: i <= j < n + e ==> a[j] == old(a[j - e])
    {
      a[i - 1] := a[i - 1 - e];
      i := i - 1;
    }
  }

  method ShiftUp(a: array<Word>, n: nat, e: nat, k: nat)
    requires 0 < n && n + e + 1 <= a.Length && 0 < k < 64
    modifies a
    ensures forall j :: e <= j < n + e + 1 ==> a[j] == ShlWord(old(a[..n]), e, k, j)
  {
    hide WordShl, WordShr, WordOr;
    ghost var ws := a[..n];
    a[n + e] := WordShr(a[n - 1], 64 - k);
    OverTheTop(ws, e, k);
    var i := n + e;
    while i >= e + 2
      invariant e + 1 <= i <= n + e
      invariant forall j :: 0 <= j < i && j < n ==> a[j] == ws[j]
      invariant forall j :: i <= j < n + e + 1 ==> a[j] == ShlWord(ws, e, k, j)
    {
      a[i - 1] := WordOr(WordShl(a[i - 1 - e], k), WordShr(a[i - 2 - e], 64 - k));
      i := i - 1;
    }
    a[e] := WordShl(a[0], k);
    FirstWord(ws, e, k);
  }

  method MoveDown(a: array<Word>, n: nat, e: nat)
    requires e <= n <= a.Length
    modifies a
    ensures forall j :: 0 <= j < n - e ==> a[j] == old(a[j + e])
  {
    for i := 0 to n - e
      invariant forall j :: 0 <= j < i ==> a[j] == old(a[j + e])
      invariant forall j :: i <= j < n ==> a[j] == old(a[j])
    {
      a[i] := a[i + e];
    }
  }

  method ShiftDown(a: array<Word>, n: nat, e: nat, k: nat)
    requires e < n <= a.Length && 0 < k < 64
    modifies a
    ensures forall j :: 0 <= j < n - e ==> a[j] == ShrWord(old(a[..n]), e, k, j)
  {
    hide WordShl, WordShr, WordOr;
    ghost var ws := a[..n];
    var i := 0;
    while i + e + 1 < n
      invariant i + e + 1 <= n
      invariant forall j :: 0 <= j < i ==> a[j] == ShrWord(ws, e, k, j)
      invariant forall j :: i <= j < n ==> a[j] == ws[j]
    {
      a[i] := WordOr(WordShr(a[i + e], k), WordShl(a[i + e + 1], 64 - k));
      i := i + 1;
    }
    a[n - e - 1] := WordShr(a[n - 1], k);
    LastOfRight(ws, e, k);
  }

  // ----- the set updated in place -----

  class BitSet {
    var words: array<Word>
    var arraySize: nat

    ghost predicate Valid()
      reads this
    {
      arraySize <= words.Length
    }

    ghost function Words(): (ws: seq<Word>)
      requires Valid()
      reads this, words
    {
      words[..arraySize]
    }

    constructor ()
      ensures Valid() && fresh(words) && Words() == []
    {
      words := new Word[0];
      arraySize := 0;
    }

    /** Room for at least `size` words. What lies beyond the copied words is arbitrary. */
    method Reserve(size: nat)
      requires Valid()
      modifies this
      ensures Valid() && size <= words.Length && arraySize == old(arraySize)
      ensures Words() == old(Words())
      ensures words == old(words) || fresh(words)
    {
      if words.Length < size {
        var bigger := new Word[size * 2];
        var n := arraySize;
        for i := 0 to n
          invariant fresh(bigger) && bigger.Length == size * 2 && words == old(words) && arraySize == old(arraySize)
          invariant bigger[..i] == words[..i]
        {
          bigger[i] := words[i];
        }
        words := bigger;
      }
    }

    method Resize(size: nat, pad: bool)
      requires Valid()
      modifies this, words
      ensures Valid() && arraySize == size
      ensures words == old(words) || fresh(words)
      ensures forall i :: 0 <= i < size && i < old(arraySize) ==> words[i] == old(Words())[i]
      ensures pad ==> forall i :: old(arraySize) <= i < size ==> words[i] == 0
    {
      var smallest := if size < arraySize then size else arraySize;
      Reserve(size);
      ghost var ws := words[..smallest];
      if pad && size > smallest {
        for i := smallest to size
          invariant arraySize == old(arraySize) && size <= words.Length && (words == old(words) || fresh(words))
          invariant words[..smallest] == ws && forall j :: smallest <= j < i ==> words[j] == 0
        {
          words[i] := 0;
        }
      }
      arraySize := size;
    }

    method Get(x: nat) returns (b: bool)
      requires Valid()
      ensures b <==> Member(Words(), x)
    {
      if x / 64 >= arraySize {
        return false;
      }
      b := And(words[x / 64], WordShl(1, x % 64)) != 0;
      SingleBit(words[x / 64], x % 64);
    }

    method Set(x: nat)
      requires Valid()
      modifies this, words
      ensures Valid() && (words == old(words) || fresh(words))
      ensures forall y: nat :: Member(Words(), y) <==> Member(old(Words()), y) || y == x
    {
      var j := x / 64;
      if j >= arraySize {
        Resize(j + 1, true);
      }
      ghost var ws := Words();
      forall y: nat ensures Member(ws, y) <==> Member(old(Words()), y) {
        BitZero(y % 64);
      }
      words[j] := WordOr(words[j], WordShl(1, x % 64));
      forall y: nat ensures Member(Words(), y) <==> Member(ws, y) || y == x {
        if y / 64 == j { OneMoreBit(ws[j], x % 64, y % 64); }
      }
    }

    method ShiftLeft(s: nat)
      requires Valid() && (arraySize > 0 || s % 64 == 0)
      modifies this, words
      ensures Valid() && (words == old(words) || fresh(words))
      ensures Words() == ShlWords(old(Words()), s / 64, s % 64)
    {
      hide ShlWord;
      var e, k, n := s / 64, s % 64, arraySize;
      ghost var ws := Words();
      if k == 0 {
        Resize(n + e, false);
        assert words[..n] == ws;
        MoveUp(words, n, e);
      } else {
        Resize(n + e + 1, true);
        assert words[..n] == ws;
        ShiftUp(words, n, e, k);
      }
      ghost var moved := Words();
      assert forall j :: e <= j < |moved| ==> moved[j] == ShlWord(ws, e, k, j) by {
        if k == 0 { forall j | e <= j < |moved| { WholeWords(ws, e, j); } }
      }
      ClearFirst(e);
      ShlAssembled(ws, e, k, moved);
    }

    method ClearFirst(e: nat)
      requires Valid() && e <= arraySize
      modifies words
      ensures Words() == seq(e, _ => 0) + old(Words())[e..]
    {
      for i := 0 to e
        invariant forall j :: 0 <= j < i ==> words[j] == 0
        invariant forall j :: i <= j < words.Length ==> words[j] == old(words[j])
      {
        words[i] := 0;
      }
    }

    method ShiftRight(s: nat)
      requires Valid() && (s / 64 < arraySize || (s % 64 == 0 && s / 64 == arraySize))
      modifies this, words
      ensures Valid() && (words == old(words) || fresh(words))
      ensures Words() == ShrWords(old(Words()), s / 64, s % 64)
    {
      hide ShrWord;
      var e, k, n := s / 64, s % 64, arraySize;
      ghost var ws := Words();
      if k == 0 {
        MoveDown(words, n, e);
      } else {
        ShiftDown(words, n, e, k);
      }
      ghost var moved := Words();
      Resize(n - e, false);
      ghost var all := Words();
      forall j | 0 <= j < |all| ensures all[j] == ShrWord(ws, e, k, j) {
        assert all[j] == moved[j];
        if k == 0 { WholeWordsRight(ws, e, j); }
      }
    }

    /** The least member from `i` on, if there is one. */
    method NextSetBit(i: nat) returns (found: bool, next: nat)
      requires Valid()
      ensures found ==> next >= i && Member(Words(), next)
      ensures found ==> forall y :: i <= y < next ==> !Member(Words(), y)
      ensures !found ==> next == i && forall y :: y >= i ==> !Member(Words(), y)
    {
      hide Bit, Ctz, WordShr;
      ghost var ws := Words();
      found, next := false, i;
      var x := i / 64;
      if x >= arraySize {
        return;
      }
      var w: Word := WordShr(words[x], i % 64);
      FromHere(ws, i);
      if w != 0 {
        return true, i + Ctz(w);
      }
      x := x + 1;
      while x < arraySize
        invariant i / 64 < x <= arraySize
        invariant forall y :: i <= y < 64 * x ==> !Member(ws, y)
      {
        w := words[x];
        WholeWordMembers(ws, x);
        if w != 0 {
          return true, x * 64 + Ctz(w);
        }
        x := x + 1;
      }
    }

    /** Calling it with the cursor moved one past each hit lists the set once, in ascending order. */
    method Enumerate() returns (xs: seq<nat>)
      requires Valid()
      ensures forall x: nat :: x in xs <==> Member(Words(), x)
      ensures forall j, k :: 0 <= j < k < |xs| ==> xs[j] < xs[k]
    {
      hide Member;
      xs := [];
      var i := 0;
      var found, next := NextSetBit(i);
      while found
        invariant forall x: nat :: x in xs <==> Member(Words(), x) && x < i
        invariant forall j :: 0 <= j < |xs| ==> xs[j] < i
        invariant forall j, k :: 0 <= j < k < |xs| ==> xs[j] < xs[k]
        invariant found ==> next >= i && Member(Words(), next) && forall y :: i <= y < next ==> !Member(Words(), y)
        invariant !found ==> forall y :: y >= i ==> !Member(Words(), y)
        decreases found, 64 * arraySize - i
      {
        WithinWords(Words(), next);
        xs := xs + [next];
        i := next + 1;
        found, next := NextSetBit(i);
      }
    }
  }

  lemma ShlAssembled(ws: seq<Word>, e: nat, k: nat, moved: seq<Word>)
    requires k < 64 && |moved| == |ws| + e + (if k == 0 then 0 else 1)
    requires forall j :: e <= j < |moved| ==> moved[j] == ShlWord(ws, e, k, j)
    ensures seq(e, _ => 0) + moved[e..] == ShlWords(ws, e, k)
  {
    hide ShlWord;
    var all := seq(e, _ => 0) + moved[e..];
    forall j | 0 <= j < |all| ensures all[j] == ShlWord(ws, e, k, j) {
      if j < e { BelowFirst(ws, e, k, j); }
    }
  }

  lemma WithinWords(ws: seq<Word>, x: nat)
    requires Member(ws, x)
    ensures x < 64 * |ws|
  {
  }

  lemma WholeWordMembers(ws: seq<Word>, j: nat)
    requires j < |ws|
    ensures ws[j] == 0 ==> forall y :: 64 * j <= y < 64 * j + 64 ==> !Member(ws, y)
    ensures ws[j] != 0 ==> Member(ws, 64 * j + Ctz(ws[j]))
    ensures ws[j] != 0 ==> forall y :: 64 * j <= y < 64 * j + Ctz(ws[j]) ==> !Member(ws, y)
  {
    hide Bit, Ctz, Member;
    if ws[j] != 0 { CtzBelow(ws[j]); BitAt(ws, j, Ctz(ws[j])); }
    forall y | 64 * j <= y < 64 * j + 64 && (ws[j] == 0 || y < 64 * j + Ctz(ws[j])) ensures !Member(ws, y) {
      BitAt(ws, j, y - 64 * j);
      BitZero(y - 64 * j);
    }
  }

  /** The word at the cursor, with the bits below the cursor shifted out. */
  lemma FromHere(ws: seq<Word>, i: nat)
    requires i / 64 < |ws|
    ensures var w := WordShr(ws[i / 64], i % 64);
      && (w == 0 ==> forall y :: i <= y < 64 * (i / 64) + 64 ==> !Member(ws, y))
      && (w != 0 ==> Member(ws, i + Ctz(w)) && forall y :: i <= y < i + Ctz(w) ==> !Member(ws, y))
  {
    hide Bit, Ctz, Member, WordShr;
    var j, k := i / 64, i % 64;
    var w := WordShr(ws[j], k);
    if w != 0 {
      CtzBelow(w);
      BitWordShr(ws[j], k, Ctz(w));
      BitAt(ws, j, k + Ctz(w));
    }
    forall y | i <= y < 64 * j + 64 && (w == 0 || y < i + Ctz(w)) ensures !Member(ws, y) {
      BitWordShr(ws[j], k, y - i);
      BitAt(ws, j, y - 64 * j);
      BitZero(y - i);
    }
  }

  // ----- the words at the edges of a shift -----

  lemma ShiftedZero(k: nat)
    requires k <= 64
    ensures WordShl(0, k) == 0 && WordShr(0, k) == 0
  {
    ScaledZero(k);
    HalvedAtMost(0, k);
  }

  lemma OrNothing(x: Word)
    ensures WordOr(x, 0) == x == WordOr(0, x)
  {
  }

  lemma WordShrAll(x: Word)
    ensures WordShr(x, 64) == 0 && WordShl(x, 64) == 0 && WordShr(x, 0) == x && WordShl(x, 0) == x
  {
    hide Halved, Scaled;
    HalvedWord(x);
    ScaledWordIs(x);
    ScaledNone(x);
    ModWord(x, 0);
  }

  lemma OverTheTop(ws: seq<Word>, e: nat, k: nat)
    requires |ws| > 0 && k < 64
    ensures ShlWord(ws, e, k, |ws| + e) == WordShr(ws[|ws| - 1], 64 - k)
  {
    hide WordShl, WordShr, WordOr;
    ShiftedZero(k);
    OrNothing(WordShr(ws[|ws| - 1], 64 - k));
  }

  lemma FirstWord(ws: seq<Word>, e: nat, k: nat)
    requires |ws| > 0 && k < 64
    ensures ShlWord(ws, e, k, e) == WordShl(ws[0], k)
  {
    hide WordShl, WordShr, WordOr;
    ShiftedZero(64 - k);
    OrNothing(WordShl(ws[0], k));
  }

  lemma BelowFirst(ws: seq<Word>, e: nat, k: nat, j: nat)
    requires j < e && k < 64
    ensures ShlWord(ws, e, k, j) == 0
  {
    hide WordShl, WordShr, WordOr;
    ShiftedZero(k);
    ShiftedZero(64 - k);
    OrNothing(0);
  }

  lemma WholeWords(ws: seq<Word>, e: nat, j: nat)
    requires e <= j < |ws| + e
    ensures ShlWord(ws, e, 0, j) == ws[j - e]
  {
    hide WordShl, WordShr, WordOr;
    WordShrAll(ws[j - e]);
    WordShrAll(WordAt(ws, j - e - 1));
    OrNothing(ws[j - e]);
  }

  lemma LastOfRight(ws: seq<Word>, e: nat, k: nat)
    requires e < |ws| && k < 64
    ensures ShrWord(ws, e, k, |ws| - e - 1) == WordShr(ws[|ws| - 1], k)
  {
    hide WordShl, WordShr, WordOr;
    ShiftedZero(64 - k);
    OrNothing(WordShr(ws[|ws| - 1], k));
  }

  lemma WholeWordsRight(ws: seq<Word>, e: nat, j: nat)
    requires j + e < |ws|
    ensures ShrWord(ws, e, 0, j) == ws[j + e]
  {
    hide WordShl, WordShr, WordOr;
    WordShrAll(ws[j + e]);
    WordShrAll(WordAt(ws, j + e + 1));
    OrNothing(ws[j + e]);
  }

  lemma {:induction false} OneBit(k: nat, i: nat)
    requires k < 64 && i < 64
    ensures Bit(WordShl(1, k), i) <==> i == k
  {
    hide WordShl;
    BitWordShl(1, k, i);
    if i > k { BitZero(i - k - 1); assert Bit(1, i - k) == Bit(0, i - k - 1); }
  }

  lemma OneMoreBit(w: Word, k: nat, i: nat)
    requires k < 64 && i < 64
    ensures Bit(WordOr(w, WordShl(1, k)), i) <==> Bit(w, i) || i == k
  {
    hide Bit, WordShl;
    BitOr(w, WordShl(1, k), i);
    OneBit(k, i);
  }

  lemma SingleBit(w: Word, k: nat)
    requires k < 64
    ensures And(w, WordShl(1, k)) != 0 <==> Bit(w, k)
  {
    hide Bit, WordShl, And, Pow2;
    var a := And(w, WordShl(1, k));
    BitAnd(w, WordShl(1, k), k);
    OneBit(k, k);
    BitZero(k);
    if !Bit(w, k) {
      forall i | 0 <= i < 64 ensures Bit(a, i) <==> Bit(0, i) {
        BitAnd(w, WordShl(1, k), i);
        OneBit(k, i);
        BitZero(i);
      }
      Pow2Word();
      SameBits(a, 0, 64);
    }
  }
}
